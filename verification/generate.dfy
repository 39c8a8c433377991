/** The fixture helper that builds a chat with a random selection of the
    existing users as members. The shuffle is an arbitrary permutation and the
    random count an arbitrary natural number, both passed in. */
module Generate {
  import opened Models

  /** `p` lists each of `0..n-1` exactly once. */
  predicate IsPermutation(p: seq<nat>, n: nat) {
    && |p| == n
    && (forall i :: 0 <= i < n ==> p[i] < n)
    && Distinct(p)
  }

  /** The elements of `s` at the positions `idx`, in that order. */
  function Pick<T>(s: seq<T>, idx: seq<nat>): (r: seq<T>)
    requires forall i :: 0 <= i < |idx| ==> idx[i] < |s|
    ensures |r| == |idx|
    ensures forall i :: 0 <= i < |idx| ==> r[i] == s[idx[i]]
  {
    seq(|idx|, i requires 0 <= i < |idx| => s[idx[i]])
  }

  lemma PickAppend<T>(s: seq<T>, a: seq<nat>, b: seq<nat>)
    requires forall i :: 0 <= i < |a| ==> a[i] < |s|
    requires forall i :: 0 <= i < |b| ==> b[i] < |s|
    ensures forall i :: 0 <= i < |a + b| ==> (a + b)[i] < |s|
    ensures Pick(s, a + b) == Pick(s, a) + Pick(s, b)
  {
  }

  /** Positions that all fall before the end read the same from a prefix. */
  lemma PickFromPrefix<T>(s: seq<T>, n: nat, idx: seq<nat>)
    requires n <= |s|
    requires forall i :: 0 <= i < |idx| ==> idx[i] < n
    ensures Pick(s, idx) == Pick(s[..n], idx)
  {
  }

  /** Dropping the entry at position `k` keeps the others distinct. */
  lemma RemoveAtDistinct(idx: seq<nat>, k: nat)
    requires k < |idx| && Distinct(idx)
    ensures Distinct(idx[..k] + idx[k + 1..])
    ensures forall x :: x in idx[..k] + idx[k + 1..] ==> x in idx && x != idx[k]
  {
    var others := idx[..k] + idx[k + 1..];
    forall i, j | 0 <= i < j < |others|
      ensures others[i] != others[j]
    {
      var i' := if i < k then i else i + 1;
      var j' := if j < k then j else j + 1;
      assert others[i] == idx[i'] && others[j] == idx[j'];
    }
  }

  /** Distinct positions that include the last one read the last element once,
      between what the other positions read from the rest of the list. */
  lemma PickAroundLast<T>(s: seq<T>, idx: seq<nat>, k: nat)
    requires forall i :: 0 <= i < |idx| ==> idx[i] < |s|
    requires Distinct(idx)
    requires k < |idx| && idx[k] == |s| - 1
    ensures forall i :: 0 <= i < |idx| && i != k ==> idx[i] < |s| - 1
    ensures Pick(s, idx) == Pick(s[..|s| - 1], idx[..k]) + [s[|s| - 1]] + Pick(s[..|s| - 1], idx[k + 1..])
  {
    var init := s[..|s| - 1];
    var r := Pick(init, idx[..k]) + [s[|s| - 1]] + Pick(init, idx[k + 1..]);
    forall i | 0 <= i < |idx|
      ensures r[i] == s[idx[i]]
    {
      if i > k {
        assert r[i] == Pick(init, idx[k + 1..])[i - k - 1];
      }
    }
  }

  /** Picking at distinct positions takes no element more often than it
      occurs in the source. */
  lemma {:induction false} PickDistinctIsSubMultiset<T>(s: seq<T>, idx: seq<nat>)
    requires forall i :: 0 <= i < |idx| ==> idx[i] < |s|
    requires Distinct(idx)
    ensures multiset(Pick(s, idx)) <= multiset(s)
    decreases |s|
  {
    if idx != [] {
      assert idx[0] < |s|;
      var last := |s| - 1;
      var init := s[..last];
      assert s == init + [s[last]];
      if k :| 0 <= k < |idx| && idx[k] == last {
        var before, after := idx[..k], idx[k + 1..];
        PickAroundLast(s, idx, k);
        RemoveAtDistinct(idx, k);
        assert forall i :: 0 <= i < |before + after| ==> (before + after)[i] in idx;
        PickDistinctIsSubMultiset(init, before + after);
        PickAppend(init, before, after);
      } else {
        assert forall i :: 0 <= i < |idx| ==> idx[i] < last;
        PickFromPrefix(s, last, idx);
        PickDistinctIsSubMultiset(init, idx);
      }
    }
  }

  /** `selectRandomUsers`: the first `cnt` positions of the shuffled index
      list, read off the user list. */
  function SelectRandomUsers(users: seq<User>, cnt: nat, perm: seq<nat>): (selected: seq<User>)
    requires cnt <= |users|
    requires IsPermutation(perm, |users|)
    ensures |selected| == cnt
    ensures forall i :: 0 <= i < cnt ==> selected[i] == users[perm[i]]
    ensures multiset(selected) <= multiset(users)
  {
    var positions := perm[..cnt];
    assert Distinct(positions);
    PickDistinctIsSubMultiset(users, positions);
    Pick(users, positions)
  }

  datatype Chat = Chat(name: string, members: seq<User>)

  const MaxMembersBound := 10

  function Min(a: nat, b: nat): nat {
    if a <= b then a else b
  }

  /** `addRandomChatWithUsers`: read all users, refuse an empty table, pick
      `draw` reduced below `min(len(users), 10)` of them, insert the chat.
      `rand.Intn(m)` is modelled as `draw % m` for an arbitrary `draw`. */
  function AddRandomChatWithUsers(db: Db, faults: Faults, draw: nat, perm: seq<nat>, name: string)
    : (r: Result<Chat>)
    requires IsPermutation(perm, |db.users|)
    ensures r.Err? <==> faults.queryFails || |db.users| == 0 || faults.createFails
    ensures r.Err? && r.error == NoUsers <==> !faults.queryFails && |db.users| == 0
    ensures faults.queryFails ==> r == Err(QueryFailed)
    ensures !faults.queryFails && |db.users| > 0 && faults.createFails ==> r == Err(CreateFailed)
    ensures r.Ok? ==>
              && r.value.name == name
              && |r.value.members| < Min(|db.users|, MaxMembersBound)
              && |r.value.members| < MaxMembersBound
              && multiset(r.value.members) <= multiset(db.users)
  {
    if faults.queryFails then Err(QueryFailed)
    else if |db.users| == 0 then Err(NoUsers)
    else
      var mn := Min(|db.users|, MaxMembersBound);
      var cnt := draw % mn;
      var chat := Chat(name, SelectRandomUsers(db.users, cnt, perm));
      if faults.createFails then Err(CreateFailed) else Ok(chat)
  }

  /** Every member count below the bound is reached by some draw. */
  lemma EveryCountBelowBoundReachable(db: Db, perm: seq<nat>, name: string, cnt: nat)
    requires IsPermutation(perm, |db.users|)
    requires cnt < Min(|db.users|, MaxMembersBound)
    ensures AddRandomChatWithUsers(db, NoFaults, cnt, perm, name).Ok?
    ensures |AddRandomChatWithUsers(db, NoFaults, cnt, perm, name).value.members| == cnt
  {
    var mn := Min(|db.users|, MaxMembersBound);
    assert cnt % mn == cnt;
  }

  /** With a single user the generated chat never has a member. */
  lemma SingleUserChatIsEmpty(db: Db, perm: seq<nat>, name: string, draw: nat)
    requires IsPermutation(perm, |db.users|)
    requires |db.users| == 1
    ensures AddRandomChatWithUsers(db, NoFaults, draw, perm, name) == Ok(Chat(name, []))
  {
    assert draw % 1 == 0;
  }
}
