/**
 Cutting a sequence into maximal runs of equal key in one pass, and grouping it by key: two descriptions that agree on
 sequences whose keys never decrease.
 */
module Grouping {
  import opened Sequences

  /** The maximal runs of consecutive elements with the same key. */
  function Runs<T>(src: seq<T>, key: T -> int): (rs: seq<seq<T>>)
    ensures src == [] <==> rs == []
  {
    if src == [] then []
    else
      var rs, x := Runs(src[..|src| - 1], key), src[|src| - 1];
      if |src| > 1 && key(src[|src| - 2]) == key(x)
      then rs[..|rs| - 1] + [rs[|rs| - 1] + [x]]
      else rs + [[x]]
  }

  /** The elements with key `k`, in order. */
  function Members<T>(src: seq<T>, key: T -> int, k: int): seq<T> {
    if src == [] then []
    else Members(src[..|src| - 1], key, k) + if key(src[|src| - 1]) == k then [src[|src| - 1]] else []
  }

  /** The non-empty groups among the keys below `n`, in key order. */
  function Groups<T>(src: seq<T>, key: T -> int, n: nat): (gs: seq<seq<T>>)
    ensures |gs| <= n
  {
    if n == 0 then []
    else
      var g := Members(src, key, n - 1);
      Groups(src, key, n - 1) + if g == [] then [] else [g]
  }

  ghost predicate KeySorted<T>(src: seq<T>, key: T -> int) {
    && (forall i :: 0 <= i < |src| ==> 0 <= key(src[i]))
    && (forall i, j :: 0 <= i <= j < |src| ==> key(src[i]) <= key(src[j]))
  }

  lemma RunsOne<T>(x: T, key: T -> int)
    ensures Runs([x], key) == [[x]]
  {
    assert [x][..0] == [];
  }

  /** The two ways one more element changes the runs. */
  lemma {:induction false} RunsSnoc<T>(src: seq<T>, x: T, key: T -> int, done: seq<seq<T>>, open: seq<T>)
    requires src != [] && Runs(src, key) == done + [open]
    ensures Runs(src + [x], key) ==
              if key(src[|src| - 1]) == key(x) then done + [open + [x]] else done + [open] + [[x]]
  {
    var all, rs := src + [x], done + [open];
    assert all[..|all| - 1] == src && all[|all| - 1] == x && all[|all| - 2] == src[|src| - 1];
    assert rs[..|rs| - 1] == done && rs[|rs| - 1] == open;
  }

  /** A scan in progress: the closed runs, and the open one the next element may extend. */
  ghost predicate Scanned<T>(seen: seq<T>, key: T -> int, done: seq<seq<T>>, open: seq<T>) {
    if seen == [] then done == [] && open == [] else open != [] && Runs(seen, key) == done + [open]
  }

  /** One more element extends the open run or closes it. */
  lemma ScanOn<T>(seen: seq<T>, x: T, key: T -> int, done: seq<seq<T>>, open: seq<T>)
    requires Scanned(seen, key, done, open)
    ensures seen == [] ==> Scanned(seen + [x], key, [], [x])
    ensures seen != [] && key(seen[|seen| - 1]) == key(x) ==> Scanned(seen + [x], key, done, open + [x])
    ensures seen != [] && key(seen[|seen| - 1]) != key(x) ==> Scanned(seen + [x], key, done + [open], [x])
  {
    if seen == [] {
      assert seen + [x] == [x];
      RunsOne(x, key);
    } else {
      RunsSnoc(seen, x, key, done, open);
    }
  }

  /** The pieces are not empty, and following one another they are the whole source. */
  ghost predicate Partitions<T>(rs: seq<seq<T>>, src: seq<T>) {
    Flatten(rs) == src && forall i :: 0 <= i < |rs| ==> rs[i] != []
  }

  lemma PartitionExtends<T>(done: seq<seq<T>>, open: seq<T>, src: seq<T>, x: T)
    requires Partitions(done + [open], src)
    ensures Partitions(done + [open + [x]], src + [x])
  {
    var longer := done + [open + [x]];
    FlattenSnoc(done, open);
    FlattenSnoc(done, open + [x]);
    ConcatAssoc(Flatten(done), open, [x]);
    forall i | 0 <= i < |longer|
      ensures longer[i] != []
    {
      assert i < |done| ==> longer[i] == (done + [open])[i];
    }
  }

  lemma PartitionGrows<T>(rs: seq<seq<T>>, src: seq<T>, x: T)
    requires Partitions(rs, src)
    ensures Partitions(rs + [[x]], src + [x])
  {
    FlattenSnoc(rs, [x]);
  }

  /** Runs are consecutive, non-empty pieces of the source: nothing is lost or counted twice, whatever the keys. */
  lemma {:induction false} RunsPartition<T>(src: seq<T>, key: T -> int)
    ensures Partitions(Runs(src, key), src)
    decreases |src|
  {
    if src != [] {
      var front, x := src[..|src| - 1], src[|src| - 1];
      assert src == front + [x];
      RunsPartition(front, key);
      PartitionSnoc(front, x, key);
    }
  }

  lemma {:induction false} PartitionSnoc<T>(src: seq<T>, x: T, key: T -> int)
    requires Partitions(Runs(src, key), src)
    ensures Partitions(Runs(src + [x], key), src + [x])
  {
    var rs := Runs(src, key);
    if src == [] {
      RunsOne(x, key);
      PartitionGrows([], [], x);
      assert [] + [x] == [x] && [] + [[x]] == [[x]];
    } else {
      var done, open := rs[..|rs| - 1], rs[|rs| - 1];
      assert rs == done + [open];
      RunsSnoc(src, x, key, done, open);
      PartitionExtends(done, open, src, x);
      PartitionGrows(rs, src, x);
    }
  }

  lemma {:induction false} MembersSnoc<T>(src: seq<T>, x: T, key: T -> int, k: int)
    ensures key(x) == k ==> Members(src + [x], key, k) == Members(src, key, k) + [x]
    ensures key(x) != k ==> Members(src + [x], key, k) == Members(src, key, k)
  {
    assert (src + [x])[..|src|] == src;
  }

  lemma {:induction false} MembersAre<T>(src: seq<T>, key: T -> int, k: int)
    ensures forall s :: s in Members(src, key, k) <==> s in src && key(s) == k
  {
    if src != [] {
      MembersAre(src[..|src| - 1], key, k);
      assert src == src[..|src| - 1] + [src[|src| - 1]];
    }
  }

  lemma {:induction false} NoMembers<T>(src: seq<T>, key: T -> int, k: int)
    requires forall s :: s in src ==> key(s) != k
    ensures Members(src, key, k) == []
  {
    if src != [] {
      var front, x := src[..|src| - 1], src[|src| - 1];
      assert src == front + [x] && x in src;
      NoMembers(front, key, k);
    }
  }

  lemma {:induction false} GroupsSnocLater<T>(src: seq<T>, x: T, key: T -> int, n: nat)
    requires n <= key(x)
    ensures Groups(src + [x], key, n) == Groups(src, key, n)
  {
    if n > 0 {
      GroupsSnocLater(src, x, key, n - 1);
      MembersSnoc(src, x, key, n - 1);
    }
  }

  lemma {:induction false} EmptyGroup<T>(src: seq<T>, key: T -> int, n: nat)
    requires forall s :: s in src ==> key(s) < n
    ensures Groups(src, key, n + 1) == Groups(src, key, n)
  {
    NoMembers(src, key, n);
    assert Groups(src, key, n) + [] == Groups(src, key, n);
  }

  /** No groups beyond the last key. */
  lemma {:induction false} GroupsBeyond<T>(src: seq<T>, key: T -> int, n: nat, more: nat)
    requires forall s :: s in src ==> key(s) < n
    ensures Groups(src, key, n + more) == Groups(src, key, n)
    decreases more
  {
    if more > 0 {
      GroupsBeyond(src, key, n, more - 1);
      EmptyGroup(src, key, n + (more - 1));
    }
  }

  /** The group of the last element closes the groups so far. */
  lemma LastGroup<T>(src: seq<T>, key: T -> int, j: nat)
    requires src != [] && j == key(src[|src| - 1])
    ensures Groups(src, key, j + 1) == Groups(src, key, j) + [Members(src, key, j)]
  {
    MembersAre(src, key, j);
    assert src[|src| - 1] in src;
  }

  /** One more element, in the last group. */
  lemma GroupsSnocSame<T>(src: seq<T>, x: T, key: T -> int, j: nat)
    requires src != [] && j == key(x)
    ensures Groups(src + [x], key, j + 1) == Groups(src, key, j) + [Members(src, key, j) + [x]]
  {
    LastGroup(src + [x], key, j);
    GroupsSnocLater(src, x, key, j);
    MembersSnoc(src, x, key, j);
  }

  /** One more element, with a key above all others. */
  lemma GroupsSnocNew<T>(src: seq<T>, x: T, key: T -> int, n: nat)
    requires n <= key(x) && forall s :: s in src ==> key(s) < n
    ensures Groups(src + [x], key, key(x) + 1) == Groups(src, key, n) + [[x]]
  {
    var j := key(x);
    LastGroup(src + [x], key, j);
    GroupsSnocLater(src, x, key, j);
    MembersSnoc(src, x, key, j);
    NoMembers(src, key, j);
    GroupsBeyond(src, key, n, j - n);
    assert [] + [x] == [x];
  }

  lemma RunsAreGroupsOne<T>(x: T, key: T -> int)
    requires key(x) >= 0
    ensures Runs([x], key) == Groups([x], key, key(x) + 1)
  {
    RunsOne(x, key);
    GroupsSnocNew([], x, key, 0);
    assert [] + [x] == [x];
  }

  lemma RunsAreGroupsSnoc<T>(src: seq<T>, x: T, key: T -> int, j: nat)
    requires KeySorted(src + [x], key) && src != [] && j == key(src[|src| - 1])
    requires Runs(src, key) == Groups(src, key, j + 1)
    ensures key(x) >= 0 && Runs(src + [x], key) == Groups(src + [x], key, key(x) + 1)
  {
    var all := src + [x];
    assert all[|src|] == x && all[|src| - 1] == src[|src| - 1];
    LastGroup(src, key, j);
    RunsSnoc(src, x, key, Groups(src, key, j), Members(src, key, j));
    if key(x) == j {
      GroupsSnocSame(src, x, key, j);
    } else {
      forall s | s in src
        ensures key(s) < j + 1
      {
        var i :| 0 <= i < |src| && src[i] == s;
        assert key(all[i]) <= key(all[|src| - 1]);
      }
      GroupsSnocNew(src, x, key, j + 1);
    }
  }

  /** When keys never decrease, the one-pass runs are the non-empty groups in key order. */
  lemma {:induction false} RunsAreGroups<T>(src: seq<T>, key: T -> int)
    requires KeySorted(src, key) && src != []
    ensures Runs(src, key) == Groups(src, key, key(src[|src| - 1]) + 1)
  {
    PrefixRunsAreGroups(src, key, |src|);
    assert src[..|src|] == src;
  }

  lemma {:induction false} PrefixRunsAreGroups<T>(src: seq<T>, key: T -> int, n: nat)
    requires KeySorted(src, key) && 1 <= n <= |src|
    ensures Runs(src[..n], key) == Groups(src[..n], key, key(src[n - 1]) + 1)
  {
    if n == 1 {
      assert src[..1] == [src[0]];
      RunsAreGroupsOne(src[0], key);
    } else {
      PrefixRunsAreGroups(src, key, n - 1);
      assert src[..n] == src[..n - 1] + [src[n - 1]];
      RunsAreGroupsSnoc(src[..n - 1], src[n - 1], key, key(src[n - 2]));
    }
  }

  ghost predicate HasKey<T>(src: seq<T>, key: T -> int, k: int) {
    exists s :: s in src && key(s) == k
  }

  ghost predicate HasEveryKey<T>(src: seq<T>, key: T -> int, n: nat) {
    forall k :: 0 <= k < n ==> HasKey(src, key, k)
  }

  lemma {:induction false} GroupPresentIff<T>(src: seq<T>, key: T -> int, k: int)
    ensures Members(src, key, k) != [] <==> HasKey(src, key, k)
  {
    if src != [] {
      var front, x := src[..|src| - 1], src[|src| - 1];
      assert src == front + [x] && x in src;
      GroupPresentIff(front, key, k);
      MembersSnoc(front, x, key, k);
      assert HasKey(front, key, k) ==> HasKey(src, key, k);
    }
  }

  lemma {:induction false} GroupsSucc<T>(src: seq<T>, key: T -> int, n: nat)
    ensures |Groups(src, key, n + 1)| == |Groups(src, key, n)| + if HasKey(src, key, n) then 1 else 0
  {
    GroupPresentIff(src, key, n);
  }

  lemma HasEveryKeySucc<T>(src: seq<T>, key: T -> int, n: nat)
    ensures HasEveryKey(src, key, n + 1) <==> HasEveryKey(src, key, n) && HasKey(src, key, n)
  {
  }

  /** There are as many groups as keys exactly when no key is missing. */
  lemma {:induction false} AllGroupsPresentIff<T>(src: seq<T>, key: T -> int, n: nat)
    ensures |Groups(src, key, n)| == n <==> HasEveryKey(src, key, n)
  {
    if n > 0 {
      AllGroupsPresentIff(src, key, n - 1);
      GroupsSucc(src, key, n - 1);
      HasEveryKeySucc(src, key, n - 1);
    }
  }

  lemma {:induction false} GroupsGrow<T>(src: seq<T>, key: T -> int, m: nat, n: nat)
    requires m <= n
    ensures |Groups(src, key, m)| <= |Groups(src, key, n)|
  {
    if m < n {
      GroupsGrow(src, key, m, n - 1);
    }
  }

  /** The keys below `m` and a later one make more than `m` runs. */
  lemma {:induction false} KeysAndOneMore<T>(src: seq<T>, key: T -> int, m: nat)
    requires KeySorted(src, key) && src != [] && m <= key(src[|src| - 1])
    requires forall k :: 0 <= k < m ==> HasKey(src, key, k)
    ensures |Runs(src, key)| > m
  {
    var last := key(src[|src| - 1]);
    AllGroupsPresentIff(src, key, m);
    GroupsGrow(src, key, m, last);
    LastGroup(src, key, last);
    RunsAreGroups(src, key);
  }

  /** Each group is all the members of its key. */
  lemma {:induction false} GroupIsMembers<T>(src: seq<T>, key: T -> int, n: nat, i: nat) returns (k: nat)
    requires i < |Groups(src, key, n)|
    ensures Groups(src, key, n)[i] == Members(src, key, k) != []
  {
    var before := Groups(src, key, n - 1);
    if i < |before| {
      k := GroupIsMembers(src, key, n - 1, i);
    } else {
      k := n - 1;
    }
  }

  /** Keys that never rise by more than one leave none out between the first and the last. */
  lemma {:induction false} SmallStepsMeetEveryKey<T>(src: seq<T>, key: T -> int, k: int)
    requires src != [] && key(src[0]) <= k <= key(src[|src| - 1])
    requires forall i :: 0 < i < |src| ==> key(src[i]) <= key(src[i - 1]) + 1
    ensures HasKey(src, key, k)
  {
    var front, x := src[..|src| - 1], src[|src| - 1];
    if key(x) == k {
      assert x in src;
    } else {
      assert src == front + [x] && front[|front| - 1] == src[|src| - 2];
      SmallStepsMeetEveryKey(front, key, k);
      assert forall s :: s in front ==> s in src;
    }
  }
}
