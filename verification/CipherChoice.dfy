/**
 The server's choice of a TLS 1.2 cipher: parsing the client's list, and the one-pass chooser with
 its equal-preference groups.
 */
module CipherChoice {
  import opened Wrappers
  import opened Bits
  import opened Bytes

  datatype Cipher = Cipher(value: nat, minVersion: nat, maxVersion: nat, mkey: nat, auth: nat)

  // ---- ssl_parse_client_cipher_list -------------------------------------------------------------

  /** The suites of a list, in order; None when it ends in half a suite. */
  function Suites(s: seq<byte>): Option<seq<nat>> {
    if s == [] then Some([])
    else if |s| == 1 then None
    else
      match Suites(s[2..])
      case None => None
      case Some(rest) => Some([FromBe(s[..2])] + rest)
  }

  /** The known ciphers among suites; unknown ones are passed over. */
  function Known(suites: seq<nat>, byValue: nat -> Option<Cipher>): seq<Cipher> {
    if suites == [] then []
    else (if byValue(suites[0]).Some? then [byValue(suites[0]).value] else []) + Known(suites[1..], byValue)
  }

  lemma {:induction false} SuitesOdd(s: seq<byte>)
    ensures Suites(s).None? <==> |s| % 2 == 1
    ensures Suites(s).Some? ==> 2 * |Suites(s).value| == |s|
  {
    if |s| >= 2 { SuitesOdd(s[2..]); }
  }

  method ParseClientCipherList(s: seq<byte>, byValue: nat -> Option<Cipher>) returns (list: Option<seq<Cipher>>)
    ensures list.None? <==> |s| % 2 == 1
    ensures list.Some? ==> Suites(s).Some? && list.value == Known(Suites(s).value, byValue)
  {
    SuitesOdd(s);
    var rest, ciphers := s, [];
    while rest != []
      invariant Suites(s).None? <==> Suites(rest).None?
      invariant Suites(s).Some? ==> Known(Suites(s).value, byValue) == ciphers + Known(Suites(rest).value, byValue)
      decreases |rest|
    {
      if |rest| == 1 {
        return None;
      }
      var c := byValue(FromBe(rest[..2]));
      if c.Some? {
        ciphers := ciphers + [c.value];
      }
      rest := rest[2..];
    }
    return Some(ciphers);
  }

  // ---- What the choice should be ----------------------------------------------------------------

  /** What the configuration and the version allow. */
  datatype Config = Config(version: nat, maskK: nat, maskA: nat) {
    predicate Allows(c: Cipher) {
      c.minVersion <= version <= c.maxVersion && And(c.mkey, maskK) != 0 && And(c.auth, maskA) != 0
    }
  }

  /** The earliest place of c in a list. */
  function IndexOf(list: seq<Cipher>, c: Cipher): (i: nat)
    requires c in list
    ensures i < |list| && list[i] == c && forall j | 0 <= j < i :: list[j] != c
  {
    if list[0] == c then 0 else IndexOf(list[1..], c) + 1
  }

  /** Whether element i of a preference list shares its group with element i + 1. */
  predicate Flag(flags: Option<seq<bool>>, i: nat) {
    flags.Some? && i < |flags.value| && flags.value[i]
  }

  /** Groups are numbered in order of preference. */
  function Group(flags: Option<seq<bool>>, i: nat): nat {
    if i == 0 then 0 else Group(flags, i - 1) + if Flag(flags, i - 1) then 0 else 1
  }

  lemma {:induction false} GroupMonotone(flags: Option<seq<bool>>, i: nat, j: nat)
    requires i <= j
    ensures Group(flags, i) <= Group(flags, j)
    decreases j
  {
    if i < j { GroupMonotone(flags, i, j - 1); }
  }

  /** A cipher of the preference list that may be used and is in the other list too. */
  predicate Acceptable(config: Config, prio: seq<Cipher>, allow: seq<Cipher>, i: nat) {
    i < |prio| && config.Allows(prio[i]) && prio[i] in allow
  }

  /**
   The cipher at place i is the one to use: no more preferred group has an acceptable cipher, and
   within its own group none comes earlier in the other side's list.
   */
  ghost predicate Best(config: Config, prio: seq<Cipher>, flags: Option<seq<bool>>, allow: seq<Cipher>, i: nat) {
    && Acceptable(config, prio, allow, i)
    && forall j: nat | Acceptable(config, prio, allow, j) ::
         && Group(flags, i) <= Group(flags, j)
         && (Group(flags, i) == Group(flags, j) ==> IndexOf(allow, prio[i]) <= IndexOf(allow, prio[j]))
  }

  /** There is at most one best cipher. */
  lemma BestUnique(config: Config, prio: seq<Cipher>, flags: Option<seq<bool>>, allow: seq<Cipher>, i: nat, j: nat)
    requires Best(config, prio, flags, allow, i) && Best(config, prio, flags, allow, j)
    ensures prio[i] == prio[j]
  {
    assert IndexOf(allow, prio[i]) == IndexOf(allow, prio[j]);
  }

  /** The group of place i is ended by a zero flag. */
  ghost predicate Closed(prio: seq<Cipher>, flags: Option<seq<bool>>, i: nat) {
    exists k :: i <= k < |prio| && Group(flags, k) == Group(flags, i) && !Flag(flags, k)
  }

  // ---- ssl3_choose_cipher -----------------------------------------------------------------------

  method Find(list: seq<Cipher>, c: Cipher) returns (index: Option<nat>)
    ensures index == if c in list then Some(IndexOf(list, c)) else None
  {
    for i := 0 to |list|
      invariant forall j | 0 <= j < i :: list[j] != c
    {
      if list[i] == c {
        return Some(i);
      }
    }
    return None;
  }

  /** What has been found in the part of the current group already scanned. */
  ghost predicate Scanned(config: Config, prio: seq<Cipher>, flags: Option<seq<bool>>, allow: seq<Cipher>,
                          i: nat, groupMin: Option<nat>) {
    match groupMin
    case None => forall j: nat | j < i :: !Acceptable(config, prio, allow, j)
    case Some(m) =>
      && m < |allow|
      && (exists j: nat :: j < i && Acceptable(config, prio, allow, j) && IndexOf(allow, prio[j]) == m)
      && forall j: nat | j < i && Acceptable(config, prio, allow, j) ::
           Group(flags, j) == Group(flags, i) && m <= IndexOf(allow, prio[j])
  }

  /** If everything scanned is in the group of place i - 1 and that group ends there, the minimum is best. */
  lemma MinIsBest(config: Config, prio: seq<Cipher>, flags: Option<seq<bool>>, allow: seq<Cipher>, i: nat, m: nat)
      returns (b: nat)
    requires i < |prio| && !Flag(flags, i) && m < |allow|
    requires exists j: nat :: j <= i && Acceptable(config, prio, allow, j) && IndexOf(allow, prio[j]) == m
    requires forall j: nat | j <= i && Acceptable(config, prio, allow, j) ::
               Group(flags, j) == Group(flags, i) && m <= IndexOf(allow, prio[j])
    ensures Best(config, prio, flags, allow, b) && prio[b] == allow[m] && Closed(prio, flags, b)
  {
    b :| b <= i && Acceptable(config, prio, allow, b) && IndexOf(allow, prio[b]) == m;
    forall j: nat | Acceptable(config, prio, allow, j)
      ensures Group(flags, b) <= Group(flags, j)
      ensures Group(flags, b) == Group(flags, j) ==> m <= IndexOf(allow, prio[j])
    {
      if j > i { GroupMonotone(flags, i + 1, j); }
    }
  }

  /**
   The one-pass chooser.  It finds the best cipher whenever that cipher's group is closed, and
   nothing otherwise.
   */
  method Choose(config: Config, prio: seq<Cipher>, flags: Option<seq<bool>>, allow: seq<Cipher>)
      returns (choice: Option<Cipher>)
    ensures choice.Some? ==> exists b: nat :: Best(config, prio, flags, allow, b) && choice.value == prio[b]
    ensures choice.Some? <==> exists b: nat :: Best(config, prio, flags, allow, b) && Closed(prio, flags, b)
  {
    hide Best, Closed, IndexOf;
    var groupMin: Option<nat> := None;
    for i := 0 to |prio|
      invariant Scanned(config, prio, flags, allow, i, groupMin)
      invariant groupMin.Some? ==> i > 0 && Flag(flags, i - 1)
    {
      var c := prio[i];
      if config.Allows(c) {
        var index := Find(allow, c);
        if index.Some? {
          assert Acceptable(config, prio, allow, i);
          if Flag(flags, i) {
            if groupMin.None? || groupMin.value > index.value {
              groupMin := index;
            }
          } else {
            var m := index.value;
            if groupMin.Some? && groupMin.value < m {
              m := groupMin.value;
            }
            ghost var b := MinIsBest(config, prio, flags, allow, i, m);
            return Some(allow[m]);
          }
        }
      }
      if flags.Some? && !Flag(flags, i) && groupMin.Some? {
        ghost var b := MinIsBest(config, prio, flags, allow, i, groupMin.value);
        return Some(allow[groupMin.value]);
      }
    }
    NoneClosed(config, prio, flags, allow, groupMin);
    return None;
  }

  /** Having scanned everything without an answer, whatever is acceptable is in a group left open. */
  lemma NoneClosed(config: Config, prio: seq<Cipher>, flags: Option<seq<bool>>, allow: seq<Cipher>, groupMin: Option<nat>)
    requires Scanned(config, prio, flags, allow, |prio|, groupMin)
    ensures forall b: nat | Best(config, prio, flags, allow, b) :: !Closed(prio, flags, b)
  {
    forall b: nat | Best(config, prio, flags, allow, b)
      ensures !Closed(prio, flags, b)
    {
      forall k | b <= k < |prio| && Group(flags, k) == Group(flags, b) ensures Flag(flags, k) {
        GroupMonotone(flags, k + 1, |prio|);
      }
    }
  }

  /** A best cipher exists as soon as any acceptable one does. */
  lemma {:induction false} BestExists(config: Config, prio: seq<Cipher>, flags: Option<seq<bool>>, allow: seq<Cipher>,
                                      i: nat)
      returns (b: nat)
    requires Acceptable(config, prio, allow, i)
    ensures Best(config, prio, flags, allow, b)
    decreases Group(flags, i), IndexOf(allow, prio[i])
  {
    if Best(config, prio, flags, allow, i) {
      b := i;
    } else {
      var j: nat :| Acceptable(config, prio, allow, j)
                    && (Group(flags, j) < Group(flags, i)
                        || (Group(flags, i) == Group(flags, j) && IndexOf(allow, prio[j]) < IndexOf(allow, prio[i])));
      b := BestExists(config, prio, flags, allow, j);
    }
  }

  /** A preference list as it should be: one flag for each cipher, the last one zero. */
  predicate WellFormed(prio: seq<Cipher>, flags: Option<seq<bool>>) {
    flags.Some? ==> |flags.value| == |prio| && (prio != [] ==> !flags.value[|prio| - 1])
  }

  lemma {:induction false} AllClosed(prio: seq<Cipher>, flags: Option<seq<bool>>, i: nat)
    requires WellFormed(prio, flags) && i < |prio|
    ensures Closed(prio, flags, i)
    decreases |prio| - i
  {
    if Flag(flags, i) {
      AllClosed(prio, flags, i + 1);
      var k :| i + 1 <= k < |prio| && Group(flags, k) == Group(flags, i + 1) && !Flag(flags, k);
      assert Group(flags, k) == Group(flags, i);
    }
  }

  /** With one flag for each cipher, a zero at the end is exactly what it takes for every group to end. */
  lemma EveryGroupEnds(prio: seq<Cipher>, flags: seq<bool>)
    requires |flags| == |prio|
    ensures WellFormed(prio, Some(flags)) <==> forall i: nat | i < |prio| :: Closed(prio, Some(flags), i)
  {
    if WellFormed(prio, Some(flags)) {
      forall i: nat | i < |prio| ensures Closed(prio, Some(flags), i) {
        AllClosed(prio, Some(flags), i);
      }
    } else {
      assert Flag(Some(flags), |prio| - 1);
      assert !Closed(prio, Some(flags), |prio| - 1);
    }
  }

  /** On a well-formed list the chooser's answer is the best cipher, and none exactly when nothing is acceptable. */
  method ChooseWellFormed(config: Config, prio: seq<Cipher>, flags: Option<seq<bool>>, allow: seq<Cipher>)
      returns (choice: Option<Cipher>)
    requires WellFormed(prio, flags)
    ensures choice.Some? ==> exists b: nat :: Best(config, prio, flags, allow, b) && choice.value == prio[b]
    ensures choice.None? <==> forall i: nat :: !Acceptable(config, prio, allow, i)
  {
    choice := Choose(config, prio, flags, allow);
    if i: nat :| Acceptable(config, prio, allow, i) {
      ghost var b := BestExists(config, prio, flags, allow, i);
      AllClosed(prio, flags, b);
    }
  }

  /** Without groups the best cipher is the first acceptable one. */
  lemma BestWithoutGroups(config: Config, prio: seq<Cipher>, allow: seq<Cipher>, i: nat)
    requires Best(config, prio, None, allow, i)
    ensures forall j: nat | j < i :: !Acceptable(config, prio, allow, j)
  {
    forall j: nat | j < i ensures !Acceptable(config, prio, allow, j) {
      NoGroups(i);
      NoGroups(j);
    }
  }

  lemma {:induction false} NoGroups(i: nat)
    ensures Group(None, i) == i
  {
    if i > 0 { NoGroups(i - 1); }
  }

  /** ssl3_choose_cipher, from the client's list as received: the roles of the two lists depend on the option. */
  method ChooseCipher(config: Config, clientList: seq<byte>, byValue: nat -> Option<Cipher>,
                      server: seq<Cipher>, groupFlags: seq<bool>, serverPreference: bool)
      returns (choice: Option<Cipher>)
    requires WellFormed(server, Some(groupFlags))
    ensures |clientList| % 2 == 1 ==> choice == None
    ensures |clientList| % 2 == 0 ==>
              Suites(clientList).Some? &&
              var client := Known(Suites(clientList).value, byValue);
              if choice.None? then forall c | c in client && c in server :: !config.Allows(c)
              else if serverPreference
              then exists b: nat :: Best(config, server, Some(groupFlags), client, b) && choice.value == server[b]
              else exists b: nat :: Acceptable(config, client, server, b) && choice.value == client[b]
                                    && forall j: nat | j < b :: !Acceptable(config, client, server, j)
  {
    SuitesOdd(clientList);
    var parsed := ParseClientCipherList(clientList, byValue);
    if parsed.None? {
      return None;
    }
    var client := parsed.value;
    if serverPreference {
      choice := ChooseWellFormed(config, server, Some(groupFlags), client);
      if choice.None? {
        forall c | c in client && c in server ensures !config.Allows(c) {
          var i :| 0 <= i < |server| && server[i] == c;
          assert !Acceptable(config, server, client, i);
        }
      }
    } else {
      choice := ChooseWellFormed(config, client, None, server);
      if choice.None? {
        forall c | c in client && c in server ensures !config.Allows(c) {
          var i :| 0 <= i < |client| && client[i] == c;
          assert !Acceptable(config, client, server, i);
        }
      } else {
        ghost var b: nat :| Best(config, client, None, server, b) && choice.value == client[b];
        BestWithoutGroups(config, client, server, b);
      }
    }
  }
}
