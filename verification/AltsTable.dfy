/** The table of bad-sector ranges: sorting, coalescing, merging and searching it. */
module AltsTable {
  import opened Bits

  const EMPTY := -1

  /** A range of bad sectors and the first of the sectors that replace it (0 when none is assigned yet). */
  datatype Ent = Ent(badStart: int, badEnd: int, goodStart: int)

  predicate Covers(e: Ent, x: int) {
    e.badStart != EMPTY && e.badStart <= x <= e.badEnd
  }

  /** How many entries satisfy `p`. */
  function Count(s: seq<Ent>, p: Ent -> bool): nat {
    if s == [] then 0 else (if p(s[0]) then 1 else 0) + Count(s[1..], p)
  }

  function Covering(x: int): Ent -> bool {
    e => Covers(e, x)
  }

  /** How many entries cover sector `x`. */
  function CoverCount(s: seq<Ent>, x: int): nat {
    Count(s, Covering(x))
  }

  lemma {:induction false} CountConcat(a: seq<Ent>, b: seq<Ent>, p: Ent -> bool)
    ensures Count(a + b, p) == Count(a, p) + Count(b, p)
  {
    if a == [] {
      assert a + b == b;
    } else {
      CountConcat(a[1..], b, p);
      assert (a + b)[1..] == a[1..] + b;
    }
  }

  /** Changing one entry changes the count by what that entry contributes. */
  lemma {:induction false} CountUpdate(s: seq<Ent>, i: nat, e: Ent, p: Ent -> bool)
    requires i < |s|
    ensures Count(s[i := e], p) + (if p(s[i]) then 1 else 0) == Count(s, p) + (if p(e) then 1 else 0)
  {
    assert s == s[..i] + ([s[i]] + s[i + 1..]);
    assert s[i := e] == s[..i] + ([e] + s[i + 1..]);
    CountConcat(s[..i], [s[i]] + s[i + 1..], p);
    CountConcat(s[..i], [e] + s[i + 1..], p);
  }

  function Without(s: seq<Ent>, j: nat): seq<Ent>
    requires j < |s|
  {
    s[..j] + s[j + 1..]
  }

  lemma {:induction false} WithoutMultiset(s: seq<Ent>, j: nat)
    requires j < |s|
    ensures multiset(Without(s, j)) == multiset(s) - multiset{s[j]}
  {
    assert s == s[..j] + [s[j]] + s[j + 1..];
  }

  lemma {:induction false} WithoutCount(s: seq<Ent>, j: nat, p: Ent -> bool)
    requires j < |s|
    ensures Count(s, p) == Count(Without(s, j), p) + if p(s[j]) then 1 else 0
  {
    assert s == s[..j] + s[j..] && s[j..][1..] == s[j + 1..];
    CountConcat(s[..j], s[j..], p);
    CountConcat(s[..j], s[j + 1..], p);
  }

  /** The count does not depend on the order of the entries. */
  lemma {:induction false} CountPermutation(a: seq<Ent>, b: seq<Ent>, p: Ent -> bool)
    requires multiset(a) == multiset(b)
    ensures Count(a, p) == Count(b, p)
    decreases |a|
  {
    if a == [] {
      assert |multiset(b)| == 0;
    } else {
      hide Count;
      assert a[0] in multiset(b);
      var j :| 0 <= j < |b| && b[j] == a[0];
      WithoutMultiset(a, 0);
      WithoutMultiset(b, j);
      CountPermutation(Without(a, 0), Without(b, j), p);
      WithoutCount(a, 0, p);
      WithoutCount(b, j, p);
    }
  }

  lemma {:induction false} CountNone(s: seq<Ent>, p: Ent -> bool)
    ensures Count(s, p) > 0 <==> exists i :: 0 <= i < |s| && p(s[i])
  {
    if s != [] {
      CountNone(s[1..], p);
      if Count(s[1..], p) > 0 {
        var i :| 0 <= i < |s[1..]| && p(s[1..][i]);
        assert p(s[i + 1]);
      }
    }
  }

  lemma {:induction false} CountPointwise(a: seq<Ent>, b: seq<Ent>, p: Ent -> bool)
    requires |a| == |b| && forall i :: 0 <= i < |a| ==> p(a[i]) == p(b[i])
    ensures Count(a, p) == Count(b, p)
  {
    if a != [] {
      CountPointwise(a[1..], b[1..], p);
    }
  }

  lemma {:induction false} CountTwo(s: seq<Ent>, i: nat, j: nat, p: Ent -> bool)
    requires i < j < |s| && p(s[i]) && p(s[j])
    ensures Count(s, p) >= 2
  {
    assert s == s[..i] + ([s[i]] + (s[i + 1..j] + ([s[j]] + s[j + 1..])));
    CountConcat(s[..i], [s[i]] + (s[i + 1..j] + ([s[j]] + s[j + 1..])), p);
    CountConcat([s[i]], s[i + 1..j] + ([s[j]] + s[j + 1..]), p);
    CountConcat(s[i + 1..j], [s[j]] + s[j + 1..], p);
    CountConcat([s[j]], s[j + 1..], p);
  }

  // ----- sorting -----------------------------------------------------------------

  predicate SortedFrom(s: seq<Ent>, lo: nat) {
    forall i, j :: lo <= i < j < |s| ==> s[i].badStart <= s[j].badStart
  }

  predicate Sorted(s: seq<Ent>) {
    SortedFrom(s, 0)
  }

  function Swap(s: seq<Ent>, j: nat): (r: seq<Ent>)
    requires 0 < j < |s|
    ensures |r| == |s|
  {
    s[j := s[j - 1]][j - 1 := s[j]]
  }

  /** Carries the lesser of neighbours from place `j` down to place `i`. */
  function Sink(s: seq<Ent>, j: nat, i: nat): (r: seq<Ent>)
    requires i <= j < |s|
    ensures |r| == |s|
    decreases j - i
  {
    if j == i then s
    else if s[j - 1].badStart < s[j].badStart then Sink(s, j - 1, i)
    else Sink(Swap(s, j), j - 1, i)
  }

  lemma {:induction false} SwapPermutes(s: seq<Ent>, j: nat)
    requires 0 < j < |s|
    ensures multiset(Swap(s, j)) == multiset(s)
  {}

  lemma {:induction false} SinkPermutes(s: seq<Ent>, j: nat, i: nat)
    requires i <= j < |s|
    ensures multiset(Sink(s, j, i)) == multiset(s)
    decreases j - i
  {
    if j > i {
      if s[j - 1].badStart < s[j].badStart {
        SinkPermutes(s, j - 1, i);
      } else {
        SwapPermutes(s, j);
        SinkPermutes(Swap(s, j), j - 1, i);
      }
    }
  }

  /** What is carried down is the least. */
  lemma {:induction false} SinkLeast(s: seq<Ent>, j: nat, i: nat)
    requires i <= j < |s|
    requires forall k :: j <= k < |s| ==> s[j].badStart <= s[k].badStart
    ensures Sink(s, j, i)[..i] == s[..i]
    ensures forall k :: i <= k < |s| ==> Sink(s, j, i)[i].badStart <= Sink(s, j, i)[k].badStart
    decreases j - i
  {
    if j > i {
      if s[j - 1].badStart < s[j].badStart {
        SinkLeast(s, j - 1, i);
      } else {
        SinkLeast(Swap(s, j), j - 1, i);
        assert Swap(s, j)[..i] == s[..i];
      }
    }
  }

  /** One pass of the sort, with the carried entry out of the array. */
  method SinkPass(buf: array<Ent>, i: nat) returns (flag: bool)
    requires i + 1 < buf.Length
    modifies buf
    ensures buf[..] == Sink(old(buf[..]), buf.Length - 1, i)
    ensures flag ==> SortedFrom(buf[..], i)
  {
    var n := buf.Length;
    var temp := buf[n - 1];
    flag := true;
    var j := n - 1;
    // The entries with `temp` put into the gap at `j`.
    ghost var virt := buf[..];
    while j > i
      invariant i <= j < n == |virt|
      invariant temp == virt[j] && forall k :: 0 <= k < n && k != j ==> buf[k] == virt[k]
      invariant Sink(virt, j, i) == Sink(old(buf[..]), n - 1, i)
      invariant flag ==> SortedFrom(virt, j)
    {
      if buf[j - 1].badStart < temp.badStart {
        buf[j] := temp;
        temp := buf[j - 1];
      } else {
        virt := Swap(virt, j);
        buf[j] := buf[j - 1];
        flag := false;
      }
      j := j - 1;
    }
    buf[i] := temp;
    assert buf[..] == virt;
  }

  /** The first `i` entries are in place. */
  predicate FrontSorted(s: seq<Ent>, i: nat) {
    forall j, k :: 0 <= j < i && j < k < |s| ==> s[j].badStart <= s[k].badStart
  }

  /** The bubble sort; it stops early after a pass that found everything in place. */
  method EntSort(buf: array<Ent>)
    modifies buf
    ensures Sorted(buf[..])
    ensures multiset(buf[..]) == multiset(old(buf[..]))
  {
    var i := 0;
    while i < buf.Length - 1
      invariant 0 <= i
      invariant FrontSorted(buf[..], i)
      invariant multiset(buf[..]) == multiset(old(buf[..]))
    {
      PassSorts(buf[..], i);
      var flag := SinkPass(buf, i);
      if flag {
        break;
      }
      i := i + 1;
    }
  }

  /** A pass puts one more entry in place. */
  lemma {:induction false} PassSorts(s: seq<Ent>, i: nat)
    requires i + 1 < |s| && FrontSorted(s, i)
    ensures FrontSorted(Sink(s, |s| - 1, i), i + 1)
    ensures multiset(Sink(s, |s| - 1, i)) == multiset(s)
  {
    SinkPermutes(s, |s| - 1, i);
    SinkLeast(s, |s| - 1, i);
    SunkKeepsOrder(s, Sink(s, |s| - 1, i), i);
  }

  /** Rearranging the tail keeps the sorted front below it. */
  lemma {:induction false} SunkKeepsOrder(a: seq<Ent>, b: seq<Ent>, i: nat)
    requires i <= |a| && multiset(a) == multiset(b) && |a| == |b| && a[..i] == b[..i]
    requires FrontSorted(a, i)
    ensures FrontSorted(b, i)
  {
    forall j, k | 0 <= j < i && j < k < |b| ensures b[j].badStart <= b[k].badStart {
      assert b[j] == b[..i][j] == a[j];
      if k < i {
        assert b[k] == b[..i][k] == a[k];
      } else {
        var l := TailMember(a, b, i, k);
      }
    }
  }

  lemma {:induction false} TailMultiset(a: seq<Ent>, i: nat)
    requires i <= |a|
    ensures multiset(a[i..]) == multiset(a) - multiset(a[..i])
  {
    assert a == a[..i] + a[i..];
  }

  lemma {:induction false} TailMember(a: seq<Ent>, b: seq<Ent>, i: nat, k: nat) returns (l: nat)
    requires i <= k < |b| == |a| && multiset(a) == multiset(b) && a[..i] == b[..i]
    ensures i <= l < |a| && a[l] == b[k]
  {
    TailMultiset(a, i);
    TailMultiset(b, i);
    assert b[k] == b[i..][k - i];
    assert b[k] in multiset(b[i..]);
    assert b[k] in a[i..];
    l :| i <= l < |a| && a[l] == b[k];
  }

  // ----- coalescing --------------------------------------------------------------

  predicate Used(e: Ent) {
    e.badStart != EMPTY
  }

  /** A newly reported bad sector, or a slot whose sector was dropped. */
  predicate SingleOrEmpty(e: Ent) {
    Used(e) ==> e.badStart == e.badEnd
  }

  predicate AllSingle(s: seq<Ent>, from: nat) {
    forall k :: from <= k < |s| ==> SingleOrEmpty(s[k])
  }

  /** Entry `l` is the next used one after entry `k`. */
  predicate Next(s: seq<Ent>, k: int, l: int) {
    0 <= k < l < |s| && Used(s[k]) && Used(s[l]) && forall m :: k < m < l ==> !Used(s[m])
  }

  /** No entry before `i` ends right before the next used one starts. */
  ghost predicate GapsBefore(s: seq<Ent>, i: int) {
    forall k, l :: Next(s, k, l) && k < i ==> s[k].badEnd + 1 != s[l].badStart
  }

  /** What coalescing keeps of each entry: whether it can only be emptied or, at its place, grow. */
  predicate Grown(was: seq<Ent>, now: seq<Ent>) {
    |was| == |now| &&
    forall k :: 0 <= k < |was| && Used(now[k]) ==>
      && now[k].badStart == was[k].badStart && now[k].goodStart == was[k].goodStart
      && now[k].badEnd >= was[k].badEnd
  }

  ghost predicate SameCover(a: seq<Ent>, b: seq<Ent>) {
    forall x :: CoverCount(a, x) == CoverCount(b, x)
  }

  /** Moving the single sector after a range from its own entry into the range. */
  lemma {:induction false} AbsorbKeepsCover(s: seq<Ent>, k: nat, m: nat)
    requires k < m < |s| && Used(s[k]) && s[k].badStart <= s[k].badEnd
    requires Used(s[m]) && SingleOrEmpty(s[m]) && s[m].badStart == s[k].badEnd + 1
    ensures SameCover(s[k := s[k].(badEnd := s[k].badEnd + 1)][m := s[m].(badStart := EMPTY)], s)
  {
    var t := s[k := s[k].(badEnd := s[k].badEnd + 1)];
    forall x ensures CoverCount(t[m := t[m].(badStart := EMPTY)], x) == CoverCount(s, x) {
      CountUpdate(s, k, t[k], Covering(x));
      CountUpdate(t, m, t[m].(badStart := EMPTY), Covering(x));
    }
  }

  /** Joins neighbouring sectors into one entry each; entries absorbed are emptied in place. */
  method EntCompress(buf: array<Ent>)
    requires AllSingle(buf[..], 0)
    modifies buf
    ensures Grown(old(buf[..]), buf[..])
    ensures SameCover(buf[..], old(buf[..]))
    ensures GapsBefore(buf[..], buf.Length)
  {
    var i := 0;
    while i < buf.Length
      invariant 0 <= i <= buf.Length
      invariant Grown(old(buf[..]), buf[..]) && SameCover(buf[..], old(buf[..]))
      invariant AllSingle(buf[..], i)
      invariant GapsBefore(buf[..], i)
    {
      if buf[i].badStart != EMPTY {
        ghost var before := buf[..];
        var movp := Absorb(buf, i);
        assert SameCover(buf[..], old(buf[..])) by {
          assert SameCover(buf[..], before) && SameCover(before, old(buf[..]));
        }
        if movp == buf.Length {
          break;
        }
      }
      i := i + 1;
    }
  }

  /** Extends entry `i` over the sectors that follow it. */
  method Absorb(buf: array<Ent>, i: nat) returns (movp: nat)
    requires i < buf.Length && Used(buf[i])
    requires AllSingle(buf[..], i) && GapsBefore(buf[..], i)
    modifies buf
    ensures i < movp <= buf.Length
    ensures Grown(old(buf[..]), buf[..]) && SameCover(buf[..], old(buf[..]))
    ensures AllSingle(buf[..], i + 1) && GapsBefore(buf[..], i + 1)
    ensures movp == buf.Length ==> GapsBefore(buf[..], buf.Length)
  {
    movp := i + 1;
    while movp < buf.Length
      invariant i < movp <= buf.Length
      invariant Grown(old(buf[..]), buf[..]) && SameCover(buf[..], old(buf[..]))
      invariant AllSingle(buf[..], i + 1) && Used(buf[i])
      invariant buf[..i] == old(buf[..i])
      invariant forall m :: i < m < movp ==> !Used(buf[m])
    {
      if buf[movp].badStart != EMPTY {
        if buf[i].badEnd + 1 != buf[movp].badStart {
          break;
        }
        AbsorbKeepsCover(buf[..], i, movp);
        ghost var before := buf[..];
        buf[i] := buf[i].(badEnd := buf[i].badEnd + 1);
        buf[movp] := buf[movp].(badStart := EMPTY);
        assert buf[..]
            == before[i := before[i].(badEnd := before[i].badEnd + 1)][movp := before[movp].(badStart := EMPTY)];
      }
      movp := movp + 1;
    }
    GapAfter(old(buf[..]), buf[..], i, movp);
  }

  /** Past the entries absorbed, entry `i` is followed by a gap or by nothing. */
  lemma {:induction false} GapAfter(was: seq<Ent>, now: seq<Ent>, i: nat, movp: nat)
    requires |was| == |now| && i < movp <= |now| && was[..i] == now[..i] && GapsBefore(was, i)
    requires Used(was[i]) && Used(now[i]) && was[i].badStart == now[i].badStart
    requires forall m :: i < m < movp ==> !Used(now[m])
    requires movp < |now| ==> Used(now[movp]) && now[i].badEnd + 1 != now[movp].badStart
    ensures GapsBefore(now, i + 1) && (movp == |now| ==> GapsBefore(now, |now|))
  {
    forall k, l | Next(now, k, l) && k < i ensures now[k].badEnd + 1 != now[l].badStart {
      assert l <= i;
      assert now[k] == was[..i][k] == was[k];
      assert forall m :: k < m < l ==> now[m] == was[..i][m] == was[m];
      assert Next(was, k, l);
    }
  }

  /** With no sector covered twice, entries that are left apart are at least one sector apart. */
  lemma {:induction false} FarApart(s: seq<Ent>, i: nat, j: nat)
    requires GapsBefore(s, |s|) && i < j < |s| && Used(s[i]) && Used(s[j])
    requires forall k :: 0 <= k < |s| && Used(s[k]) ==> s[k].badStart <= s[k].badEnd
    requires forall k, l :: 0 <= k < l < |s| && Used(s[k]) && Used(s[l]) ==> s[k].badEnd < s[l].badStart
    ensures s[i].badEnd + 1 < s[j].badStart
  {
    var l := i + 1;
    while !Used(s[l])
      invariant i < l <= j && forall m :: i < m < l ==> !Used(s[m])
      decreases j - l
    {
      l := l + 1;
    }
    assert Next(s, i, l);
  }

  // ----- merging -------------------------------------------------------------------

  /** The used entries, in order. */
  function UsedOf(s: seq<Ent>): (r: seq<Ent>)
    ensures |r| <= |s|
  {
    if s == [] then [] else (if Used(s[0]) then [s[0]] else []) + UsedOf(s[1..])
  }

  /** The used entries of two tables in order of their first sector; the second table's go first when equal. */
  function Merge(a: seq<Ent>, b: seq<Ent>): (r: seq<Ent>)
    ensures |r| <= |a| + |b|
  {
    if a == [] then UsedOf(b)
    else if b == [] then UsedOf(a)
    else if !Used(a[0]) then Merge(a[1..], b)
    else if !Used(b[0]) then Merge(a, b[1..])
    else if a[0].badStart < b[0].badStart then [a[0]] + Merge(a[1..], b)
    else [b[0]] + Merge(a, b[1..])
  }

  /** One step of the merge of what is left. */
  lemma {:induction false} MergeOn(a: seq<Ent>, b: seq<Ent>, i: nat, j: nat)
    requires i < |a| && j < |b|
    ensures Merge(a[i..], b[j..]) ==
            if !Used(a[i]) then Merge(a[i + 1..], b[j..])
            else if !Used(b[j]) then Merge(a[i..], b[j + 1..])
            else if a[i].badStart < b[j].badStart then [a[i]] + Merge(a[i + 1..], b[j..])
            else [b[j]] + Merge(a[i..], b[j + 1..])
  {
    assert a[i..][1..] == a[i + 1..] && b[j..][1..] == b[j + 1..];
  }

  /** Of two entries that start together, that of the second table comes first. */
  lemma {:induction false} MergeTies(a: Ent, b: Ent)
    requires Used(a) && Used(b) && a.badStart == b.badStart
    ensures Merge([a], [b]) == [b, a]
  {
    assert [b][1..] == [] && [a][1..] == [];
    assert UsedOf([a]) == [a] + UsedOf([]);
    assert Merge([a], []) == [a];
  }

  lemma {:induction false} MergeEnd(a: seq<Ent>, b: seq<Ent>)
    requires a == [] || b == []
    ensures Merge(a, b) == if a == [] then UsedOf(b) else UsedOf(a)
  {}

  /** Merges two tables into `buf` and drops their empty slots. */
  method EntMerge(buf: array<Ent>, list1: array<Ent>, list2: array<Ent>) returns (i: nat)
    requires buf != list1 && buf != list2 && buf.Length == list1.Length + list2.Length
    modifies buf
    ensures i <= buf.Length && buf[..i] == Merge(list1[..], list2[..])
  {
    hide Merge, UsedOf;
    var j1, j2 := 0, 0;
    i := 0;
    ghost var whole := Merge(list1[..], list2[..]);
    assert list1[0..] == list1[..] && list2[0..] == list2[..];
    while j1 < list1.Length && j2 < list2.Length
      invariant 0 <= j1 <= list1.Length && 0 <= j2 <= list2.Length && i <= j1 + j2
      invariant buf[..i] + Merge(list1[j1..], list2[j2..]) == whole
    {
      MergeOn(list1[..], list2[..], j1, j2);
      if list1[j1].badStart == EMPTY {
        j1 := j1 + 1;
      } else if list2[j2].badStart == EMPTY {
        j2 := j2 + 1;
      } else if list1[j1].badStart < list2[j2].badStart {
        i := CopyOne(buf, i, list1[j1]);
        j1 := j1 + 1;
      } else {
        i := CopyOne(buf, i, list2[j2]);
        j2 := j2 + 1;
      }
    }
    MergeEnd(list1[j1..], list2[j2..]);
    if j1 < list1.Length {
      i := CopyUsed(buf, i, list1, j1);
    } else {
      i := CopyUsed(buf, i, list2, j2);
    }
  }

  method CopyOne(buf: array<Ent>, i: nat, e: Ent) returns (n: nat)
    requires i < buf.Length
    modifies buf
    ensures n == i + 1 && buf[..n] == old(buf[..i]) + [e]
  {
    buf[i] := e;
    n := i + 1;
  }

  /** Appends the used entries of `list` from `j` on. */
  method CopyUsed(buf: array<Ent>, i: nat, list: array<Ent>, j: nat) returns (n: nat)
    requires buf != list && j <= list.Length && i + (list.Length - j) <= buf.Length
    modifies buf
    ensures n <= buf.Length && buf[..n] == old(buf[..i]) + UsedOf(list[j..])
  {
    n := i;
    var k := j;
    while k < list.Length
      invariant j <= k <= list.Length && n + (list.Length - k) <= buf.Length
      invariant buf[..n] + UsedOf(list[k..]) == old(buf[..i]) + UsedOf(list[j..])
    {
      assert list[k..][0] == list[k] && list[k..][1..] == list[k + 1..];
      if list[k].badStart != EMPTY {
        n := CopyOne(buf, n, list[k]);
      }
      k := k + 1;
    }
  }

  lemma {:induction false} UsedOfMembers(s: seq<Ent>)
    ensures forall e :: e in UsedOf(s) <==> e in s && Used(e)
  {
    if s != [] {
      UsedOfMembers(s[1..]);
      assert s == [s[0]] + s[1..];
    }
  }

  lemma {:induction false} UsedOfCount(s: seq<Ent>, p: Ent -> bool)
    requires forall e :: p(e) ==> Used(e)
    ensures Count(UsedOf(s), p) == Count(s, p)
  {
    if s != [] {
      UsedOfCount(s[1..], p);
      CountConcat(if Used(s[0]) then [s[0]] else [], UsedOf(s[1..]), p);
    }
  }

  /** Merging loses and invents nothing. */
  lemma {:induction false} MergeMembers(a: seq<Ent>, b: seq<Ent>)
    ensures forall e :: e in Merge(a, b) <==> Used(e) && (e in a || e in b)
  {
    if a == [] {
      UsedOfMembers(b);
    } else if b == [] {
      UsedOfMembers(a);
    } else {
      assert a == [a[0]] + a[1..] && b == [b[0]] + b[1..];
      if !Used(a[0]) || (Used(b[0]) && a[0].badStart < b[0].badStart) {
        MergeMembers(a[1..], b);
      } else {
        MergeMembers(a, b[1..]);
      }
    }
  }

  lemma {:induction false} MergeCount(a: seq<Ent>, b: seq<Ent>, p: Ent -> bool)
    requires forall e :: p(e) ==> Used(e)
    ensures Count(Merge(a, b), p) == Count(a, p) + Count(b, p)
  {
    if a == [] {
      UsedOfCount(b, p);
    } else if b == [] {
      UsedOfCount(a, p);
    } else if !Used(a[0]) || (Used(b[0]) && a[0].badStart < b[0].badStart) {
      MergeCount(a[1..], b, p);
    } else {
      MergeCount(a, b[1..], p);
    }
  }

  /** The used entries are in order of their first sector. */
  predicate UsedSorted(s: seq<Ent>) {
    forall i, j :: 0 <= i < j < |s| && Used(s[i]) && Used(s[j]) ==> s[i].badStart <= s[j].badStart
  }

  predicate AtLeast(s: seq<Ent>, lo: int) {
    forall i :: 0 <= i < |s| && Used(s[i]) ==> lo <= s[i].badStart
  }

  lemma {:induction false} UsedOfSorted(s: seq<Ent>, lo: int)
    requires UsedSorted(s) && AtLeast(s, lo)
    ensures Sorted(UsedOf(s)) && AtLeast(UsedOf(s), lo)
  {
    if s != [] {
      UsedOfSorted(s[1..], if Used(s[0]) then s[0].badStart else lo);
      UsedOfMembers(s[1..]);
    }
  }

  lemma {:induction false} SortedCons(e: Ent, s: seq<Ent>, lo: int)
    requires Used(e) && lo <= e.badStart && Sorted(s) && AtLeast(s, e.badStart) && forall x :: x in s ==> Used(x)
    ensures Sorted([e] + s) && AtLeast([e] + s, lo)
  {
    forall i | 0 <= i < |s| ensures e.badStart <= s[i].badStart {
      assert s[i] in s;
    }
  }

  lemma {:induction false} MergeSorted(a: seq<Ent>, b: seq<Ent>, lo: int)
    requires UsedSorted(a) && UsedSorted(b) && AtLeast(a, lo) && AtLeast(b, lo)
    ensures Sorted(Merge(a, b)) && AtLeast(Merge(a, b), lo)
  {
    hide Sorted;
    if a == [] {
      UsedOfSorted(b, lo);
    } else if b == [] {
      UsedOfSorted(a, lo);
    } else if !Used(a[0]) {
      MergeSorted(a[1..], b, lo);
    } else if !Used(b[0]) {
      MergeSorted(a, b[1..], lo);
    } else if a[0].badStart < b[0].badStart {
      MergeSorted(a[1..], b, a[0].badStart);
      MergeMembers(a[1..], b);
      SortedCons(a[0], Merge(a[1..], b), lo);
    } else {
      MergeSorted(a, b[1..], b[0].badStart);
      MergeMembers(a, b[1..]);
      SortedCons(b[0], Merge(a, b[1..]), lo);
    }
  }

  // ----- disjoint ranges -----------------------------------------------------------

  /** Used ranges in order, each at least one sector long, no two of them overlapping. */
  predicate RangesOk(s: seq<Ent>) {
    && (forall i :: 0 <= i < |s| ==> Used(s[i]) && s[i].badStart <= s[i].badEnd)
    && (forall i, j :: 0 <= i < j < |s| ==> s[i].badEnd < s[j].badStart)
  }

  /** A sorted table covers no sector twice exactly when its ranges are disjoint. */
  lemma {:induction false} CoveredOnce(s: seq<Ent>)
    requires Sorted(s) && forall i :: 0 <= i < |s| ==> Used(s[i]) && s[i].badStart <= s[i].badEnd
    ensures RangesOk(s) <==> forall x :: CoverCount(s, x) <= 1
  {
    if RangesOk(s) {
      forall x ensures CoverCount(s, x) <= 1 {
        DisjointCoverOnce(s, x);
      }
    } else {
      var i, j :| 0 <= i < j < |s| && s[i].badEnd >= s[j].badStart;
      CountTwo(s, i, j, Covering(s[j].badStart));
      assert CoverCount(s, s[j].badStart) >= 2;
    }
  }

  lemma {:induction false} DisjointCoverOnce(s: seq<Ent>, x: int)
    requires RangesOk(s)
    ensures CoverCount(s, x) <= 1
  {
    if s != [] {
      DisjointCoverOnce(s[1..], x);
      CountNone(s[1..], Covering(x));
    }
  }

  // ----- searching -----------------------------------------------------------------

  /** Any entry that covers `x` lies less than `interval` away from entry `ind`, counting entries from 1. */
  predicate Within(s: seq<Ent>, x: int, ind: int, interval: int) {
    forall t :: 0 <= t < |s| && Covers(s[t], x) ==> ind - interval < t + 1 < ind + interval
  }

  /** Finds the entry that covers sector `x`, or -1. */
  method EntBsearch(buf: array<Ent>, x: int) returns (r: int)
    requires forall i :: 0 <= i < buf.Length ==> Used(buf[i])
    ensures -1 <= r < buf.Length
    ensures RangesOk(buf[..]) && r == -1 ==> forall i :: 0 <= i < buf.Length ==> !Covers(buf[i], x)
    ensures r != -1 ==> Covers(buf[r], x)
  {
    var cnt := buf.Length;
    if cnt == 0 {
      return -1;
    }
    var ind, i := 1, 1;
    ghost var e: nat := 0;
    while i <= cnt
      invariant 1 <= ind <= cnt && ind == Pow2(e) && (i == ind == 1 || i == 2 * ind)
      decreases cnt + 1 - i
    {
      e := if i == 1 then 0 else e + 1;
      ind := i;
      i := 2 * i;
    }
    var interval := ind;
    while interval != 0
      invariant interval == Pow2(e) && interval <= ind <= cnt
      invariant RangesOk(buf[..]) ==> Within(buf[..], x, ind, interval)
      decreases interval
    {
      if buf[ind - 1].badStart <= x <= buf[ind - 1].badEnd {
        return ind - 1;
      }
      interval := interval / 2;
      if interval == 0 {
        break;
      }
      e := e - 1;
      if x < buf[ind - 1].badStart {
        ind := ind - interval;
      } else {
        if ind == cnt {
          break;
        }
        if ind + interval <= cnt {
          ind := ind + interval;
        }
      }
    }
    return -1;
  }
}
