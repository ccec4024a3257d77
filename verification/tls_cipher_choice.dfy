/** The server's choice of cipher among those both sides list, with the server's
    equal-preference groups. */
module TlsCipherChoice {
  import opened Options

  type Cipher = nat

  /** The place of a cipher in a list. */
  function Index(list: seq<Cipher>, c: Cipher): (i: nat)
    requires c in list
    ensures i < |list| && list[i] == c && c !in list[..i]
  {
    if list[0] == c then 0 else Index(list[1..], c) + 1
  }

  /** sk_SSL_CIPHER_find. */
  method Find(list: seq<Cipher>, c: Cipher) returns (r: Option<nat>)
    ensures if c in list then r == Some(Index(list, c)) else r.None?
  {
    for i := 0 to |list|
      invariant c !in list[..i]
    {
      if list[i] == c {
        FirstIs(list, c, i);
        return Some(i);
      }
    }
    return None;
  }

  lemma {:induction false} FirstIs(list: seq<Cipher>, c: Cipher, i: nat)
    requires i < |list| && list[i] == c && c !in list[..i]
    ensures Index(list, c) == i
  {
    if i > 0 {
      assert list[0] in list[..i];
      assert list[1..][..i - 1] == list[..i][1..];
      FirstIs(list[1..], c, i - 1);
    }
  }

  /** A cipher that both sides list and that the version, the key exchange and the
      certificate allow. */
  predicate Acceptable(c: Cipher, usable: set<Cipher>, allow: seq<Cipher>) { c in usable && c in allow }

  predicate NoneIn(prio: seq<Cipher>, lo: nat, hi: nat, usable: set<Cipher>, allow: seq<Cipher>)
    requires hi <= |prio|
  {
    forall k :: lo <= k < hi ==> !Acceptable(prio[k], usable, allow)
  }

  /** prio[lo..hi] is one whole group: every flag but the last says that the group
      goes on. */
  predicate IsGroup(inGroup: seq<bool>, lo: nat, hi: nat) {
    && lo < hi <= |inGroup| && !inGroup[hi - 1]
    && (lo > 0 ==> !inGroup[lo - 1])
    && forall k :: lo <= k < hi - 1 ==> inGroup[k]
  }

  /** The choice is the cipher of the first group with an acceptable one that comes
      earliest in the other side's list. */
  ghost predicate Best(c: Cipher, prio: seq<Cipher>, inGroup: seq<bool>, usable: set<Cipher>, allow: seq<Cipher>,
        lo: nat, hi: nat)
    requires |inGroup| == |prio|
  {
    && IsGroup(inGroup, lo, hi) && NoneIn(prio, 0, lo, usable, allow)
    && c in prio[lo..hi] && Acceptable(c, usable, allow)
    && forall k :: lo <= k < hi && Acceptable(prio[k], usable, allow) ==> Index(allow, c) <= Index(allow, prio[k])
  }

  /** A list whose last group is not closed: from position i on all flags are set. */
  predicate Open(inGroup: seq<bool>, i: nat) { forall k :: i <= k < |inGroup| ==> inGroup[k] }

  /** group_min is the smallest place found in the group so far, or -1. */
  ghost predicate Smallest(groupMin: int, prio: seq<Cipher>, lo: nat, i: nat, usable: set<Cipher>, allow: seq<Cipher>)
    requires lo <= i <= |prio|
  {
    if groupMin == -1 then NoneIn(prio, lo, i, usable, allow)
    else
      && 0 <= groupMin < |allow| && allow[groupMin] in prio[lo..i] && Acceptable(allow[groupMin], usable, allow)
      && Index(allow, allow[groupMin]) == groupMin
      && forall k :: lo <= k < i && Acceptable(prio[k], usable, allow) ==> groupMin <= Index(allow, prio[k])
  }

  /** The smaller of the place found so far and that of the next cipher. */
  function Smaller(groupMin: int, index: nat): nat {
    if groupMin == -1 || groupMin > index then index else if groupMin < 0 then 0 else groupMin
  }

  lemma {:induction false} TakesInto(groupMin: int, prio: seq<Cipher>, lo: nat, i: nat, usable: set<Cipher>,
        allow: seq<Cipher>)
    requires lo <= i < |prio| && Smallest(groupMin, prio, lo, i, usable, allow) && Acceptable(prio[i], usable, allow)
    ensures Smallest(Smaller(groupMin, Index(allow, prio[i])), prio, lo, i + 1, usable, allow)
  {
    assert prio[lo..i + 1] == prio[lo..i] + [prio[i]];
  }

  lemma {:induction false} PassesOver(groupMin: int, prio: seq<Cipher>, lo: nat, i: nat, usable: set<Cipher>,
        allow: seq<Cipher>)
    requires lo <= i < |prio| && Smallest(groupMin, prio, lo, i, usable, allow) && !Acceptable(prio[i], usable, allow)
    ensures Smallest(groupMin, prio, lo, i + 1, usable, allow)
  {
    assert prio[lo..i + 1] == prio[lo..i] + [prio[i]];
  }

  lemma {:induction false} SmallestIsBest(m: nat, prio: seq<Cipher>, inGroup: seq<bool>, lo: nat, hi: nat,
        usable: set<Cipher>, allow: seq<Cipher>)
    requires |inGroup| == |prio| && IsGroup(inGroup, lo, hi) && NoneIn(prio, 0, lo, usable, allow)
    requires Smallest(m, prio, lo, hi, usable, allow)
    ensures Best(allow[m], prio, inGroup, usable, allow, lo, hi)
    ensures exists i :: 0 <= i < |prio| && Acceptable(prio[i], usable, allow) && !Open(inGroup, i)
  {
    var i :| lo <= i < hi && prio[i] == allow[m];
    assert !inGroup[hi - 1];
  }

  /** The loop of ssl3_choose_cipher under server preference. The choice is the
      best of the first group that has any; nothing is chosen exactly when no
      closed group has an acceptable cipher. */
  method ChooseByGroups(prio: seq<Cipher>, inGroup: seq<bool>, usable: set<Cipher>, allow: seq<Cipher>)
    returns (r: Option<Cipher>, ghost lo: nat, ghost hi: nat)
    requires |inGroup| == |prio|
    ensures r.Some? ==> Best(r.value, prio, inGroup, usable, allow, lo, hi)
    ensures r.None? <==> forall i :: 0 <= i < |prio| && Acceptable(prio[i], usable, allow) ==> Open(inGroup, i)
  {
    var groupMin: int := -1;
    lo, hi := 0, 0;
    for i := 0 to |prio|
      invariant lo <= i && (lo > 0 ==> !inGroup[lo - 1])
      invariant NoneIn(prio, 0, lo, usable, allow)
      invariant forall k :: lo <= k < i ==> inGroup[k]
      invariant Smallest(groupMin, prio, lo, i, usable, allow)
    {
      hi := i + 1;
      var found := Find(allow, prio[i]);
      if prio[i] in usable && found.Some? {
        var cipherIndex := found.value;
        TakesInto(groupMin, prio, lo, i, usable, allow);
        if inGroup[i] {
          if groupMin == -1 || groupMin > cipherIndex { groupMin := cipherIndex; }
        } else {
          if groupMin != -1 && groupMin < cipherIndex { cipherIndex := groupMin; }
          SmallestIsBest(cipherIndex, prio, inGroup, lo, hi, usable, allow);
          return Some(allow[cipherIndex]), lo, hi;
        }
      } else {
        PassesOver(groupMin, prio, lo, i, usable, allow);
      }
      if !inGroup[i] {
        if groupMin != -1 {
          SmallestIsBest(groupMin, prio, inGroup, lo, hi, usable, allow);
          return Some(allow[groupMin]), lo, hi;
        }
        lo := i + 1;
      }
    }
    return None, lo, hi;
  }

  /** The same loop without groups, by the client's preference: its first
      acceptable cipher. */
  method ChooseInOrder(prio: seq<Cipher>, usable: set<Cipher>, allow: seq<Cipher>) returns (r: Option<Cipher>)
    ensures r.None? <==> NoneIn(prio, 0, |prio|, usable, allow)
    ensures r.Some? ==> r.value in prio && Acceptable(r.value, usable, allow)
                        && NoneIn(prio, 0, Index(prio, r.value), usable, allow)
  {
    for i := 0 to |prio|
      invariant NoneIn(prio, 0, i, usable, allow)
    {
      var found := Find(allow, prio[i]);
      if prio[i] in usable && found.Some? {
        assert prio[i] !in prio[..i];
        FirstIs(prio, prio[i], i);
        return Some(allow[found.value]);
      }
    }
    return None;
  }

  /** ssl3_choose_cipher. With every flag of the last group closed, as the
      preference list promises, no choice means nothing is acceptable. */
  method ChooseCipher(client: seq<Cipher>, server: seq<Cipher>, inGroup: seq<bool>, usable: set<Cipher>,
        serverPreference: bool)
    returns (r: Option<Cipher>)
    requires |inGroup| == |server|
    ensures r.Some? ==> r.value in client && r.value in server && r.value in usable
    ensures !serverPreference ==> (r.None? <==> NoneIn(client, 0, |client|, usable, server))
    ensures serverPreference && (|server| > 0 ==> !inGroup[|server| - 1]) ==>
              (r.None? <==> NoneIn(server, 0, |server|, usable, client))
    ensures serverPreference && r.Some? ==> exists lo, hi :: Best(r.value, server, inGroup, usable, client, lo, hi)
    ensures !serverPreference && r.Some? ==> NoneIn(client, 0, Index(client, r.value), usable, server)
  {
    if serverPreference {
      ghost var lo, hi;
      r, lo, hi := ChooseByGroups(server, inGroup, usable, client);
      if |server| > 0 && !inGroup[|server| - 1] {
        forall i | 0 <= i < |server| ensures !Open(inGroup, i) { assert !inGroup[|server| - 1]; }
      }
    } else {
      r := ChooseInOrder(client, usable, server);
    }
  }
}
