/** Newest-first lists: stable sorting, merging and paging. */
module NewestFirst {
  datatype Kind = Command | Flow | Event | Proposal | Agreement

  datatype Entry = Entry(time: int, kind: Kind, actor: string, action: string, objectId: string)

  ghost predicate Ordered(s: seq<Entry>) {
    forall i, j :: 0 <= i < j < |s| ==> s[i].time >= s[j].time
  }

  function Take(s: seq<Entry>, n: nat): seq<Entry> {
    if n <= |s| then s[..n] else s
  }

  function Keep(f: Entry -> bool, s: seq<Entry>): seq<Entry> {
    if s == [] then [] else (if f(s[0]) then [s[0]] else []) + Keep(f, s[1..])
  }

  /** Before the first entry that is not newer. */
  function Insert(x: Entry, s: seq<Entry>): seq<Entry> {
    if s == [] || x.time >= s[0].time then [x] + s else [s[0]] + Insert(x, s[1..])
  }

  function StableSort(s: seq<Entry>): seq<Entry> {
    if s == [] then [] else Insert(s[0], StableSort(s[1..]))
  }

  function Merge(a: seq<Entry>, b: seq<Entry>): seq<Entry> {
    if a == [] then b
    else if b == [] then a
    else if a[0].time >= b[0].time then [a[0]] + Merge(a[1..], b)
    else [b[0]] + Merge(a, b[1..])
  }

  function At(time: int): Entry -> bool {
    (e: Entry) => e.time == time
  }

  // ---- What a stable sort is --------------------------------------------------------------

  lemma {:induction false} InsertMembers(x: Entry, s: seq<Entry>)
    ensures multiset(Insert(x, s)) == multiset{x} + multiset(s)
    ensures forall e :: e in Insert(x, s) <==> e == x || e in s
  {
    if s != [] && x.time < s[0].time {
      InsertMembers(x, s[1..]);
      assert s == [s[0]] + s[1..];
    }
  }

  lemma {:induction false} InsertKeepsOrder(x: Entry, s: seq<Entry>)
    requires Ordered(s)
    ensures Ordered(Insert(x, s))
  {
    if s != [] && x.time < s[0].time {
      InsertKeepsOrder(x, s[1..]);
      InsertMembers(x, s[1..]);
      var rest := Insert(x, s[1..]);
      forall j | 0 <= j < |rest| ensures s[0].time >= rest[j].time {
        assert rest[j] in rest;
      }
    }
  }

  lemma {:induction false} InsertAmongEquals(x: Entry, s: seq<Entry>, time: int)
    ensures Keep(At(time), Insert(x, s)) == Keep(At(time), [x] + s)
  {
    if s != [] && x.time < s[0].time {
      InsertAmongEquals(x, s[1..], time);
      assert ([x] + s)[1..] == s && ([x] + s[1..])[1..] == s[1..];
      assert Insert(x, s)[1..] == Insert(x, s[1..]);
    }
  }

  /** The result is ordered, has the same entries, and keeps entries of equal time in their order. */
  lemma {:induction false} StableSortSorts(s: seq<Entry>)
    ensures Ordered(StableSort(s)) && multiset(StableSort(s)) == multiset(s)
    ensures forall time :: Keep(At(time), StableSort(s)) == Keep(At(time), s)
  {
    if s != [] {
      StableSortSorts(s[1..]);
      var rest := StableSort(s[1..]);
      InsertKeepsOrder(s[0], rest);
      InsertMembers(s[0], rest);
      assert s == [s[0]] + s[1..];
      forall time ensures Keep(At(time), StableSort(s)) == Keep(At(time), s) {
        InsertAmongEquals(s[0], rest, time);
        assert Keep(At(time), rest) == Keep(At(time), s[1..]);
        assert ([s[0]] + rest)[1..] == rest;
      }
    }
  }

  /** Ordered lists that agree on every time are equal: there is only one stable sort. */
  lemma {:induction false} OneStableSort(s: seq<Entry>, t: seq<Entry>)
    requires Ordered(s) && Ordered(t)
    requires forall time :: Keep(At(time), s) == Keep(At(time), t)
    ensures s == t
  {
    if s == [] || t == [] {
      if s != [] {
        SomeAtFirst(s);
        assert false;
      }
      if t != [] {
        SomeAtFirst(t);
        assert false;
      }
    } else {
      FirstTimesAgree(s, t);
      FirstTimesAgree(t, s);
      SomeAtFirst(s);
      SomeAtFirst(t);
      assert Keep(At(s[0].time), s) == Keep(At(t[0].time), t);
      assert s == [s[0]] + s[1..] && t == [s[0]] + t[1..];
      forall time ensures Keep(At(time), s[1..]) == Keep(At(time), t[1..]) {
        assert Keep(At(time), s) == Keep(At(time), t);
        TailsAgree(At(time), s[0], s[1..], t[1..]);
      }
      OneStableSort(s[1..], t[1..]);
    }
  }

  lemma KeepStep(f: Entry -> bool, x: Entry, s: seq<Entry>)
    ensures Keep(f, [x] + s) == if f(x) then [x] + Keep(f, s) else Keep(f, s)
  {
    assert ([x] + s)[1..] == s;
  }

  lemma TailsAgree(f: Entry -> bool, x: Entry, s: seq<Entry>, t: seq<Entry>)
    requires Keep(f, [x] + s) == Keep(f, [x] + t)
    ensures Keep(f, s) == Keep(f, t)
  {
    KeepStep(f, x, s);
    KeepStep(f, x, t);
    if f(x) {
      assert Keep(f, s) == Keep(f, [x] + s)[1..];
      assert Keep(f, t) == Keep(f, [x] + t)[1..];
    }
  }

  lemma SomeAtFirst(s: seq<Entry>)
    requires s != []
    ensures Keep(At(s[0].time), s) != [] && Keep(At(s[0].time), s)[0] == s[0]
  {
  }

  lemma FirstTimesAgree(s: seq<Entry>, t: seq<Entry>)
    requires s != [] && t != [] && Ordered(t)
    requires Keep(At(s[0].time), s) == Keep(At(s[0].time), t)
    ensures s[0].time <= t[0].time
  {
    if s[0].time > t[0].time {
      NoneAt(t, s[0].time);
    }
  }

  lemma {:induction false} NoneAt(t: seq<Entry>, time: int)
    requires forall i :: 0 <= i < |t| ==> t[i].time != time
    ensures Keep(At(time), t) == []
  {
    if t != [] {
      NoneAt(t[1..], time);
    }
  }

  // ---- Sorting behind an ordered front is merging -------------------------------------------

  lemma {:induction false} InsertIntoMerge(x: Entry, a: seq<Entry>, b: seq<Entry>)
    requires Ordered([x] + a) && Ordered(b)
    ensures Insert(x, Merge(a, b)) == Merge([x] + a, b)
  {
    assert ([x] + a)[1..] == a;
    assert a != [] ==> ([x] + a)[1] == a[0];
    if b != [] && x.time < b[0].time {
      InsertIntoMerge(x, a, b[1..]);
      assert Merge(a, b)[1..] == Merge(a, b[1..]);
    }
  }

  lemma {:induction false} SortIsMerge(a: seq<Entry>, b: seq<Entry>)
    requires Ordered(a)
    ensures StableSort(a + b) == Merge(a, StableSort(b))
  {
    if a == [] {
      assert a + b == b;
    } else {
      assert (a + b)[1..] == a[1..] + b && [a[0]] + a[1..] == a;
      SortIsMerge(a[1..], b);
      StableSortSorts(b);
      InsertIntoMerge(a[0], a[1..], StableSort(b));
    }
  }

  lemma {:induction false} KeepMembers(f: Entry -> bool, s: seq<Entry>)
    ensures forall e :: e in Keep(f, s) <==> e in s && f(e)
    ensures |Keep(f, s)| <= |s|
  {
    if s != [] {
      KeepMembers(f, s[1..]);
      assert s == [s[0]] + s[1..];
    }
  }

  lemma {:induction false} KeepOrdered(f: Entry -> bool, s: seq<Entry>)
    requires Ordered(s)
    ensures Ordered(Keep(f, s))
  {
    if s != [] {
      KeepOrdered(f, s[1..]);
      KeepMembers(f, s[1..]);
      var rest := Keep(f, s[1..]);
      forall j | 0 <= j < |rest| ensures s[0].time >= rest[j].time {
        assert rest[j] in s[1..];
      }
    }
  }

  lemma Assoc(a: seq<Entry>, b: seq<Entry>, c: seq<Entry>)
    ensures a + b + c == a + (b + c)
  {
  }

  lemma {:induction false} KeepConcat(f: Entry -> bool, a: seq<Entry>, b: seq<Entry>)
    ensures Keep(f, a + b) == Keep(f, a) + Keep(f, b)
  {
    if a == [] {
      assert a + b == b;
    } else {
      KeepConcat(f, a[1..], b);
      KeepConcatStep(f, a[0], a[1..], b);
      assert a == [a[0]] + a[1..];
    }
  }

  lemma KeepConcatStep(f: Entry -> bool, x: Entry, a: seq<Entry>, b: seq<Entry>)
    requires Keep(f, a + b) == Keep(f, a) + Keep(f, b)
    ensures Keep(f, [x] + a + b) == Keep(f, [x] + a) + Keep(f, b)
  {
    Assoc([x], a, b);
    KeepStep(f, x, a);
    KeepStep(f, x, a + b);
    Assoc([x], Keep(f, a), Keep(f, b));
  }

  lemma MergeTakesFirst(x: Entry, a: seq<Entry>, b: seq<Entry>)
    requires b == [] || x.time >= b[0].time
    ensures Merge([x] + a, b) == [x] + Merge(a, b)
  {
    assert ([x] + a)[1..] == a;
  }

  lemma MergeTakesSecond(x: Entry, a: seq<Entry>, b: seq<Entry>)
    requires a == [] || a[0].time < x.time
    ensures Merge(a, [x] + b) == [x] + Merge(a, b)
  {
    assert ([x] + b)[1..] == b;
  }

  /** Filtering commutes with merging. */
  lemma {:induction false} KeepMerge(f: Entry -> bool, a: seq<Entry>, b: seq<Entry>)
    requires Ordered(a) && Ordered(b)
    ensures Keep(f, Merge(a, b)) == Merge(Keep(f, a), Keep(f, b))
    decreases |a| + |b|
  {
    if a != [] && b != [] {
      if a[0].time >= b[0].time {
        KeepMerge(f, a[1..], b);
        KeepMergeFirst(f, a[0], a[1..], b);
        assert a == [a[0]] + a[1..];
      } else {
        KeepMerge(f, a, b[1..]);
        KeepMergeSecond(f, b[0], a, b[1..]);
        assert b == [b[0]] + b[1..];
      }
    }
  }

  lemma KeepMergeFirst(f: Entry -> bool, x: Entry, a: seq<Entry>, b: seq<Entry>)
    requires forall e :: e in b ==> x.time >= e.time
    requires Keep(f, Merge(a, b)) == Merge(Keep(f, a), Keep(f, b))
    ensures Keep(f, Merge([x] + a, b)) == Merge(Keep(f, [x] + a), Keep(f, b))
  {
    KeepMembers(f, b);
    MergeTakesFirst(x, a, b);
    KeepStep(f, x, Merge(a, b));
    KeepStep(f, x, a);
    MergeTakesFirst(x, Keep(f, a), Keep(f, b));
  }

  lemma KeepMergeSecond(f: Entry -> bool, x: Entry, a: seq<Entry>, b: seq<Entry>)
    requires forall e :: e in a ==> e.time < x.time
    requires Keep(f, Merge(a, b)) == Merge(Keep(f, a), Keep(f, b))
    ensures Keep(f, Merge(a, [x] + b)) == Merge(Keep(f, a), Keep(f, [x] + b))
  {
    KeepMembers(f, a);
    MergeTakesSecond(x, a, b);
    KeepStep(f, x, Merge(a, b));
    KeepStep(f, x, b);
    MergeTakesSecond(x, Keep(f, a), Keep(f, b));
  }

  // ---- Truncating one side -----------------------------------------------------------------

  function NewerThan(s: seq<Entry>, time: int): nat {
    if s == [] then 0 else (if s[0].time > time then 1 else 0) + NewerThan(s[1..], time)
  }

  lemma {:induction false} NewerThanSplits(s: seq<Entry>, time: int)
    requires Ordered(s)
    ensures NewerThan(s, time) <= |s|
    ensures forall i :: 0 <= i < |s| ==> (s[i].time > time <==> i < NewerThan(s, time))
  {
    if s != [] {
      NewerThanSplits(s[1..], time);
      assert forall i :: 0 < i < |s| ==> s[i] == s[1..][i - 1];
    }
  }

  /** `b2` comes after `a`, `c` after `b1`: the merge falls into two. */
  lemma {:induction false} MergeSplits(a: seq<Entry>, c: seq<Entry>, b1: seq<Entry>, b2: seq<Entry>)
    requires forall x, y :: x in a && y in b2 ==> x.time >= y.time
    requires forall x, y :: x in b1 && y in c ==> x.time > y.time
    ensures Merge(a + c, b1 + b2) == Merge(a, b1) + Merge(c, b2)
    decreases |a| + |b1|
  {
    if a != [] && (b1 == [] || a[0].time >= b1[0].time) {
      MergeSplits(a[1..], c, b1, b2);
      MergeSplitsFirst(a, c, b1, b2);
    } else if b1 != [] {
      MergeSplits(a, c, b1[1..], b2);
      MergeSplitsSecond(a, c, b1, b2);
    } else {
      assert a + c == c && b1 + b2 == b2;
    }
  }

  lemma MergeSplitsFirst(a: seq<Entry>, c: seq<Entry>, b1: seq<Entry>, b2: seq<Entry>)
    requires a != [] && Merge(a[1..] + c, b1 + b2) == Merge(a[1..], b1) + Merge(c, b2)
    requires (b1 == [] || a[0].time >= b1[0].time) && (b2 == [] || a[0].time >= b2[0].time)
    ensures Merge(a + c, b1 + b2) == Merge(a, b1) + Merge(c, b2)
  {
    var x, rest := a[0], a[1..];
    assert a == [x] + rest;
    Assoc([x], rest, c);
    MergeTakesFirst(x, rest, b1);
    MergeTakesFirst(x, rest + c, b1 + b2);
    Assoc([x], Merge(rest, b1), Merge(c, b2));
  }

  lemma MergeSplitsSecond(a: seq<Entry>, c: seq<Entry>, b1: seq<Entry>, b2: seq<Entry>)
    requires b1 != [] && Merge(a + c, b1[1..] + b2) == Merge(a, b1[1..]) + Merge(c, b2)
    requires (a == [] || a[0].time < b1[0].time) && (c == [] || c[0].time < b1[0].time)
    ensures Merge(a + c, b1 + b2) == Merge(a, b1) + Merge(c, b2)
  {
    var x, rest := b1[0], b1[1..];
    assert b1 == [x] + rest;
    Assoc([x], rest, b2);
    MergeTakesSecond(x, a, rest);
    MergeTakesSecond(x, a + c, rest + b2);
    Assoc([x], Merge(a, rest), Merge(c, b2));
  }

  lemma {:induction false} MergeLength(a: seq<Entry>, b: seq<Entry>)
    ensures |Merge(a, b)| == |a| + |b|
  {
    if a != [] && b != [] {
      if a[0].time >= b[0].time {
        MergeLength(a[1..], b);
      } else {
        MergeLength(a, b[1..]);
      }
    }
  }

  /**
   * `lost` is missing from the first list; `b1` is what is newer than its first entry. The merge is
   * unchanged up to where that entry belongs, and continues with the second list's remainder from there.
   */
  lemma MergeUpToTheLoss(a: seq<Entry>, lost: seq<Entry>, b1: seq<Entry>, b2: seq<Entry>)
    requires lost != [] && Ordered(a + lost)
    requires forall e :: e in b1 ==> e.time > lost[0].time
    requires forall e :: e in b2 ==> e.time <= lost[0].time
    ensures Merge(a, b1 + b2) == Merge(a, b1) + b2
    ensures Merge(a + lost, b1 + b2) == Merge(a, b1) + ([lost[0]] + Merge(lost[1..], b2))
    ensures |Merge(a, b1)| == |a| + |b1|
  {
    AroundTheLoss(a, lost);
    MergeSplits(a, lost, b1, b2);
    MergeSplits(a, [], b1, b2);
    assert a + [] == a;
    LostFirst(lost, b2);
    MergeLength(a, b1);
  }

  lemma LostFirst(lost: seq<Entry>, b: seq<Entry>)
    requires lost != [] && forall e :: e in b ==> e.time <= lost[0].time
    ensures Merge(lost, b) == [lost[0]] + Merge(lost[1..], b)
  {
  }

  lemma AroundTheLoss(a: seq<Entry>, lost: seq<Entry>)
    requires lost != [] && Ordered(a + lost)
    ensures forall x :: x in a ==> x.time >= lost[0].time
    ensures forall x :: x in lost ==> x.time <= lost[0].time
  {
    var all := a + lost;
    assert all[|a|] == lost[0];
    forall x | x in a ensures x.time >= lost[0].time {
      var i :| 0 <= i < |a| && a[i] == x;
      assert all[i] == x;
    }
    forall x | x in lost ensures x.time <= lost[0].time {
      var i :| 0 <= i < |lost| && lost[i] == x;
      assert all[|a| + i] == x;
    }
  }

  lemma PagesDiffer(front: seq<Entry>, some: seq<Entry>, x: Entry, rest: seq<Entry>, limit: nat)
    requires x !in some
    ensures Take(front + some, limit) == Take(front + ([x] + rest), limit) <==> limit <= |front|
  {
    if limit > |front| {
      assert Take(front + ([x] + rest), limit)[|front|] == x;
      assert some != [] ==> Take(front + some, limit)[|front|] == some[0];
    }
  }

  lemma TruncationAtTheLoss(a: seq<Entry>, lost: seq<Entry>, b1: seq<Entry>, b2: seq<Entry>, limit: nat)
    requires lost != [] && Ordered(a + lost) && lost[0] !in b2
    requires forall e :: e in b1 ==> e.time > lost[0].time
    requires forall e :: e in b2 ==> e.time <= lost[0].time
    ensures Take(Merge(a, b1 + b2), limit) == Take(Merge(a + lost, b1 + b2), limit) <==> |a| + |b1| >= limit
  {
    MergeUpToTheLoss(a, lost, b1, b2);
    PagesDiffer(Merge(a, b1), b2, lost[0], Merge(lost[1..], b2), limit);
  }

  /** A page of the truncated merge is the page of the whole one exactly when the loss lies beyond it. */
  lemma TruncationIsExactIff(a: seq<Entry>, lost: seq<Entry>, b: seq<Entry>, limit: nat)
    requires Ordered(a + lost) && Ordered(b)
    requires forall e :: e in lost ==> e !in b
    ensures Take(Merge(a, b), limit) == Take(Merge(a + lost, b), limit)
            <==> lost == [] || |a| + NewerThan(b, lost[0].time) >= limit
  {
    if lost == [] {
      assert a + lost == a;
    } else {
      var newer := NewerThan(b, lost[0].time);
      NewerThanSplits(b, lost[0].time);
      assert b == b[..newer] + b[newer..];
      assert lost[0] in lost;
      TruncationAtTheLoss(a, lost, b[..newer], b[newer..], limit);
    }
  }

  // ---- Two lists that differ here and there ------------------------------------------------

  /** A difference at `k` does not show on the page: it lies beyond, or the filter drops both entries. */
  ghost predicate HarmlessAt(f: Entry -> bool, a: seq<Entry>, b: seq<Entry>, n: nat, k: int)
    requires |a| == |b|
  {
    0 <= k < |b| && a[k] != b[k] && |Keep(f, b[..k])| < n ==> !f(a[k]) && !f(b[k])
  }

  ghost predicate AllHarmless(f: Entry -> bool, a: seq<Entry>, b: seq<Entry>, n: nat)
    requires |a| == |b|
  {
    forall k :: HarmlessAt(f, a, b, n, k)
  }

  lemma HarmlessShifts(f: Entry -> bool, a: seq<Entry>, b: seq<Entry>, n: nat, k: nat, next: nat)
    requires |a| == |b| && k + 1 == next < |a| && (f(b[0]) ==> n > 0)
    ensures HarmlessAt(f, a, b, n, next) <==> HarmlessAt(f, a[1..], b[1..], if f(b[0]) then n - 1 else n, k)
  {
    assert b[..next] == [b[0]] + b[1..][..k];
    KeepStep(f, b[0], b[1..][..k]);
  }

  lemma AllHarmlessShifts(f: Entry -> bool, a: seq<Entry>, b: seq<Entry>, n: nat)
    requires |a| == |b| && a != [] && (f(b[0]) ==> n > 0) && HarmlessAt(f, a, b, n, 0)
    ensures AllHarmless(f, a, b, n) <==> AllHarmless(f, a[1..], b[1..], if f(b[0]) then n - 1 else n)
  {
    var m := if f(b[0]) then n - 1 else n;
    if AllHarmless(f, a, b, n) {
      forall k ensures HarmlessAt(f, a[1..], b[1..], m, k) {
        if 0 <= k < |a| - 1 {
          HarmlessShifts(f, a, b, n, k, k + 1);
          assert HarmlessAt(f, a, b, n, k + 1);
        }
      }
    }
    if AllHarmless(f, a[1..], b[1..], m) {
      forall k ensures HarmlessAt(f, a, b, n, k) {
        if 0 < k < |a| {
          HarmlessShifts(f, a, b, n, k - 1, k);
          assert HarmlessAt(f, a[1..], b[1..], m, k - 1);
        }
      }
    }
  }

  /** Entries of one list that the other lacks. */
  ghost predicate DifferFreshly(a: seq<Entry>, b: seq<Entry>)
    requires |a| == |b|
  {
    forall k :: 0 <= k < |a| && a[k] != b[k] ==> a[k] !in b && b[k] !in a
  }

  lemma TakeOfStep(x: Entry, s: seq<Entry>, n: nat)
    requires n > 0
    ensures Take([x] + s, n) == [x] + Take(s, n - 1)
  {
  }

  lemma FirstIsMissing(f: Entry -> bool, a: seq<Entry>, b: seq<Entry>, n: nat)
    requires a != [] && f(a[0]) && a[0] !in b && n > 0
    ensures Take(Keep(f, a), n) != Take(Keep(f, b), n)
  {
    KeepMembers(f, b);
    assert Take(Keep(f, a), n)[0] == a[0];
    assert Keep(f, b) != [] ==> Keep(f, b)[0] in Keep(f, b) && Take(Keep(f, b), n)[0] == Keep(f, b)[0];
  }

  /** The filtered pages of two lists that differ here and there agree if and only if no difference shows. */
  lemma {:induction false} PagesAgreeIff(f: Entry -> bool, a: seq<Entry>, b: seq<Entry>, n: nat)
    requires |a| == |b| && DifferFreshly(a, b)
    ensures Take(Keep(f, a), n) == Take(Keep(f, b), n) <==> AllHarmless(f, a, b, n)
  {
    if a != [] && n > 0 {
      var x, y := a[0], b[0];
      assert a == [x] + a[1..] && b == [y] + b[1..];
      KeepStep(f, x, a[1..]);
      KeepStep(f, y, b[1..]);
      if x != y && (f(x) || f(y)) {
        assert b[..0] == [] && !HarmlessAt(f, a, b, n, 0);
        if f(x) {
          FirstIsMissing(f, a, b, n);
        } else {
          FirstIsMissing(f, b, a, n);
        }
      } else {
        assert DifferFreshly(a[1..], b[1..]);
        AllHarmlessShifts(f, a, b, n);
        PagesAgreeIff(f, a[1..], b[1..], if f(y) then n - 1 else n);
        if f(y) {
          TakeOfStep(x, Keep(f, a[1..]), n);
          TakeOfStep(x, Keep(f, b[1..]), n);
          assert Take(Keep(f, a[1..]), n - 1) == Take(Keep(f, a), n)[1..];
          assert Take(Keep(f, b[1..]), n - 1) == Take(Keep(f, b), n)[1..];
        }
      }
    }
  }

  // ---- Paging by the last entry's time ----------------------------------------------------------

  function Older(time: int): Entry -> bool {
    (e: Entry) => e.time < time
  }

  /** The entries that repeated fetching visits, each page asking for what is older than the last entry shown. */
  function Visited(s: seq<Entry>, size: nat): seq<Entry>
    requires size > 0
    decreases |s|
  {
    if |s| <= size then s
    else
      KeepMembers(Older(s[size - 1].time), s);
      KeepDrops(Older(s[size - 1].time), s, size - 1);
      s[..size] + Visited(Keep(Older(s[size - 1].time), s), size)
  }

  lemma {:induction false} KeepDrops(f: Entry -> bool, s: seq<Entry>, i: nat)
    requires i < |s| && !f(s[i])
    ensures |Keep(f, s)| < |s|
  {
    KeepMembers(f, s[1..]);
    if i > 0 {
      KeepDrops(f, s[1..], i - 1);
    }
  }

  lemma {:induction false} KeepAll(f: Entry -> bool, s: seq<Entry>)
    requires forall e :: e in s ==> f(e)
    ensures Keep(f, s) == s
  {
    if s != [] {
      KeepAll(f, s[1..]);
    }
  }

  lemma {:induction false} KeepNone(f: Entry -> bool, s: seq<Entry>)
    requires forall e :: e in s ==> !f(e)
    ensures Keep(f, s) == []
  {
    if s != [] {
      KeepNone(f, s[1..]);
    }
  }

  /** What is older than a boundary: all that follows it, unless a tie straddles the boundary. */
  lemma OlderThanBoundary(s: seq<Entry>, k: nat)
    requires Ordered(s) && 0 < k < |s|
    ensures var rest := Keep(Older(s[k - 1].time), s);
            && |rest| <= |s| - k
            && (s[k].time < s[k - 1].time ==> rest == s[k..])
            && (s[k].time == s[k - 1].time ==> |rest| < |s| - k)
  {
    var f := Older(s[k - 1].time);
    assert s == s[..k] + s[k..];
    KeepConcat(f, s[..k], s[k..]);
    KeepNone(f, s[..k]);
    KeepMembers(f, s[k..]);
    if s[k].time < s[k - 1].time {
      KeepAll(f, s[k..]);
    } else {
      KeepDrops(f, s[k..], 0);
    }
  }

  /** The position of the first entry of page `j`. */
  function PageStart(j: nat, size: nat): (k: nat)
    ensures j > 0 ==> k >= size
  {
    if j == 0 then 0 else PageStart(j - 1, size) + size
  }

  /** Page `j` starts with an entry older than the one before it. */
  ghost predicate StartsOlder(s: seq<Entry>, size: nat, j: nat) {
    var k := PageStart(j, size);
    0 < k < |s| ==> s[k].time < s[k - 1].time
  }

  /** No page boundary falls between two entries of the same time. */
  ghost predicate NoTieAcrossPages(s: seq<Entry>, size: nat) {
    forall j: nat :: StartsOlder(s, size, j)
  }

  lemma {:induction false} VisitedShrinks(s: seq<Entry>, size: nat)
    requires size > 0 && Ordered(s)
    ensures |Visited(s, size)| <= |s|
    decreases |s|
  {
    if |s| > size {
      OlderThanBoundary(s, size);
      var rest := Keep(Older(s[size - 1].time), s);
      KeepOrdered(Older(s[size - 1].time), s);
      VisitedShrinks(rest, size);
    }
  }

  lemma TiesInTheRest(s: seq<Entry>, size: nat)
    requires 0 < size < |s| && s[size].time < s[size - 1].time
    ensures NoTieAcrossPages(s, size) <==> NoTieAcrossPages(s[size..], size)
  {
    var rest := s[size..];
    forall j: nat ensures StartsOlder(rest, size, j) <==> j == 0 || StartsOlder(s, size, j + 1) {
      assert PageStart(j + 1, size) == PageStart(j, size) + size;
    }
    if NoTieAcrossPages(rest, size) {
      forall j: nat ensures StartsOlder(s, size, j) {
        if j > 1 {
          var before := j - 1;
          assert StartsOlder(rest, size, before);
        } else if j == 1 {
          assert PageStart(1, size) == PageStart(0, size) + size;
        }
      }
    }
  }

  /** Paging visits every entry exactly once, in order, if and only if no page boundary falls inside a tie. */
  lemma {:induction false} PagingEnumeratesIff(s: seq<Entry>, size: nat)
    requires size > 0 && Ordered(s)
    ensures Visited(s, size) == s <==> NoTieAcrossPages(s, size)
    decreases |s|
  {
    if |s| <= size {
      assert forall j: nat :: StartsOlder(s, size, j);
    } else {
      OlderThanBoundary(s, size);
      var rest := Keep(Older(s[size - 1].time), s);
      KeepOrdered(Older(s[size - 1].time), s);
      if s[size].time < s[size - 1].time {
        assert s == s[..size] + s[size..];
        PagingEnumeratesIff(s[size..], size);
        TiesInTheRest(s, size);
        assert Visited(s, size) == s[..size] + Visited(s[size..], size);
      } else {
        VisitedShrinks(rest, size);
        assert PageStart(1, size) == PageStart(0, size) + size;
        assert !StartsOlder(s, size, 1);
      }
    }
  }
}

/** The activity feed of an environment: a truncated command source merged with proposals and agreements. */
module ActivityFeed {
  import opened Options
  import opened NewestFirst

  const MAX_LIMIT := 200

  /** Ids are None when the payload does not carry them as strings. */
  datatype Payload =
    | Transition(agreement: Option<string>, to: Option<string>)
    | Other(kind: Kind, action: string, objectId: string)

  datatype CommandRow = CommandRow(time: int, actor: string, payload: Payload)

  datatype ProposalRow = ProposalRow(id: string, author: string, reviewer: Option<string>, created: int,
                                     decided: Option<int>, applied: Option<int>)

  /** `visible`: the viewer is a party, the environment's owner, or absent. */
  datatype AgreementRow = AgreementRow(id: string, status: string, consumer: string, provider: string,
                                       wasCountered: bool, created: int, updated: int, visible: bool)

  /** `log` is the whole command log in the store's order, the newest row first. */
  datatype Stores = Stores(log: seq<CommandRow>, proposals: seq<ProposalRow>, agreements: seq<AgreementRow>)

  /** The latest audit row of each (agreement, status): who acted, and when. */
  datatype Acted = Acted(actor: string, time: int)
  type Actors = map<(string, string), Acted>

  // ---- Rows and entries -----------------------------------------------------------------------

  predicate RowIsOlder(row: CommandRow, before: Option<int>) {
    before.None? || row.time < before.value
  }

  function RowsOlder(log: seq<CommandRow>, before: Option<int>): seq<CommandRow> {
    if log == [] then []
    else (if RowIsOlder(log[0], before) then [log[0]] else []) + RowsOlder(log[1..], before)
  }

  function Fetched(log: seq<CommandRow>, limit: nat, before: Option<int>): seq<CommandRow> {
    var rows := RowsOlder(log, before);
    if |rows| <= limit then rows else rows[..limit]
  }

  function ShownKind(kind: Kind): Kind {
    if kind == Flow || kind == Event then kind else Command
  }

  function CommandEntry(row: CommandRow): Entry
    requires row.payload.Other?
  {
    Entry(row.time, ShownKind(row.payload.kind), row.actor, row.payload.action, row.payload.objectId)
  }

  function CommandEntries(rows: seq<CommandRow>): seq<Entry> {
    if rows == [] then []
    else
      var last := rows[|rows| - 1];
      CommandEntries(rows[..|rows| - 1]) + if last.payload.Other? then [CommandEntry(last)] else []
  }

  predicate Names(row: CommandRow, agreement: string, to: string) {
    row.payload.Transition? && row.payload.agreement == Some(agreement) && row.payload.to == Some(to)
  }

  function Recorded(actors: Actors, row: CommandRow): Actors {
    if row.payload.Transition? && row.payload.agreement.Some? && row.payload.to.Some? then
      var key := (row.payload.agreement.value, row.payload.to.value);
      if key !in actors || row.time >= actors[key].time then actors[key := Acted(row.actor, row.time)] else actors
    else actors
  }

  function ActorsOf(rows: seq<CommandRow>): Actors {
    if rows == [] then map[] else Recorded(ActorsOf(rows[..|rows| - 1]), rows[|rows| - 1])
  }

  function ProposalEntries(row: ProposalRow): (entries: seq<Entry>)
    ensures forall e :: e in entries ==> e.kind == Proposal
  {
    var reviewer := if row.reviewer.Some? then row.reviewer.value else row.author;
    [Entry(row.created, Proposal, row.author, "submitted", row.id)]
    + (if row.decided.Some? then [Entry(row.decided.value, Proposal, reviewer, "decided", row.id)] else [])
    + (if row.applied.Some? then [Entry(row.applied.value, Proposal, row.author, "applied", row.id)] else [])
  }

  /** Who closed the agreement: the audited actor, or a guess from the row's shape. */
  function ClosedBy(row: AgreementRow, actors: Actors): string {
    if (row.id, row.status) in actors then actors[(row.id, row.status)].actor
    else if row.wasCountered && (row.status == "active" || row.status == "rejected") then row.consumer
    else row.provider
  }

  function AgreementEntries(row: AgreementRow, actors: Actors): (entries: seq<Entry>)
    ensures forall e :: e in entries ==> e.kind == Agreement
  {
    if !row.visible then []
    else
      [Entry(row.created, Agreement, row.consumer, "proposed", row.id)]
      + if row.status == "countered" then [Entry(row.updated, Agreement, row.provider, "countered", row.id)]
        else if row.status != "proposed" then [Entry(row.updated, Agreement, ClosedBy(row, actors), row.status, row.id)]
        else []
  }

  function AllProposalEntries(rows: seq<ProposalRow>): (entries: seq<Entry>)
    ensures forall e :: e in entries ==> e.kind == Proposal
  {
    if rows == [] then []
    else AllProposalEntries(rows[..|rows| - 1]) + ProposalEntries(rows[|rows| - 1])
  }

  function AllAgreementEntries(rows: seq<AgreementRow>, actors: Actors): (entries: seq<Entry>)
    ensures forall e :: e in entries ==> e.kind == Agreement
  {
    if rows == [] then []
    else AllAgreementEntries(rows[..|rows| - 1], actors) + AgreementEntries(rows[|rows| - 1], actors)
  }

  /** What proposals and agreements contribute. */
  function Governance(stores: Stores, actors: Actors): (entries: seq<Entry>)
    ensures forall e :: e in entries ==> e.kind == Proposal || e.kind == Agreement
  {
    AllProposalEntries(stores.proposals) + AllAgreementEntries(stores.agreements, actors)
  }

  function Selected(before: Option<int>, filter: Option<Entry -> bool>): Entry -> bool {
    (e: Entry) => (before.Some? ==> e.time < before.value) && (filter.Some? ==> filter.value(e))
  }

  function SourceLimit(limit: nat, filtered: bool): nat {
    if filtered then MAX_LIMIT else limit
  }

  function Feed(stores: Stores, limit: nat, before: Option<int>, filter: Option<Entry -> bool>): seq<Entry> {
    var rows := Fetched(stores.log, SourceLimit(limit, filter.Some?), before);
    Take(Keep(Selected(before, filter),
              StableSort(CommandEntries(rows) + Governance(stores, ActorsOf(rows)))), limit)
  }

  method BuildFeed(stores: Stores, limit: nat, before: Option<int>, filter: Option<Entry -> bool>)
    returns (page: seq<Entry>)
    ensures page == Feed(stores, limit, before, filter)
  {
    var sourceLimit := if filter.Some? then MAX_LIMIT else limit;
    var rows := Fetched(stores.log, sourceLimit, before);
    var entries, actors := ReadCommands(rows);
    var governance := ReadGovernance(stores, actors);
    page := Take(Keep(Selected(before, filter), StableSort(entries + governance)), limit);
  }

  /** Transition rows are not rendered, only asked who acted. */
  method ReadCommands(rows: seq<CommandRow>) returns (entries: seq<Entry>, actors: Actors)
    ensures entries == CommandEntries(rows) && actors == ActorsOf(rows)
  {
    entries, actors := [], map[];
    for i := 0 to |rows|
      invariant entries == CommandEntries(rows[..i]) && actors == ActorsOf(rows[..i])
    {
      assert rows[..i + 1][..i] == rows[..i];
      var row := rows[i];
      if row.payload.Transition? {
        if row.payload.agreement.Some? && row.payload.to.Some? {
          var key := (row.payload.agreement.value, row.payload.to.value);
          if key !in actors || row.time >= actors[key].time {
            actors := actors[key := Acted(row.actor, row.time)];
          }
        }
      } else {
        entries := entries + [CommandEntry(row)];
      }
    }
    assert rows[..|rows|] == rows;
  }

  method ReadGovernance(stores: Stores, actors: Actors) returns (entries: seq<Entry>)
    ensures entries == Governance(stores, actors)
  {
    entries := [];
    for i := 0 to |stores.proposals|
      invariant entries == AllProposalEntries(stores.proposals[..i])
    {
      assert stores.proposals[..i + 1][..i] == stores.proposals[..i];
      entries := entries + ProposalEntries(stores.proposals[i]);
    }
    assert stores.proposals[..|stores.proposals|] == stores.proposals;
    var proposed := entries;
    for i := 0 to |stores.agreements|
      invariant entries == proposed + AllAgreementEntries(stores.agreements[..i], actors)
    {
      assert stores.agreements[..i + 1][..i] == stores.agreements[..i];
      Assoc(proposed, AllAgreementEntries(stores.agreements[..i], actors), AgreementEntries(stores.agreements[i], actors));
      entries := entries + AgreementEntries(stores.agreements[i], actors);
    }
    assert stores.agreements[..|stores.agreements|] == stores.agreements;
  }

  // ---- The untruncated feed ---------------------------------------------------------------------

  /** Log rows never get newer further down. */
  ghost predicate NewestFirstLog(log: seq<CommandRow>) {
    forall i, j :: 0 <= i < j < |log| ==> log[i].time >= log[j].time
  }

  /** The feed built from every command row, given who acted. */
  function WholeFeed(stores: Stores, actors: Actors, before: Option<int>, filter: Option<Entry -> bool>): seq<Entry> {
    Keep(Selected(before, filter), StableSort(CommandEntries(stores.log) + Governance(stores, actors)))
  }

  lemma {:induction false} CommandEntriesConcat(a: seq<CommandRow>, b: seq<CommandRow>)
    ensures CommandEntries(a + b) == CommandEntries(a) + CommandEntries(b)
  {
    if b == [] {
      assert a + b == a;
    } else {
      assert (a + b)[..|a + b| - 1] == a + b[..|b| - 1];
      CommandEntriesConcat(a, b[..|b| - 1]);
    }
  }

  lemma {:induction false} CommandEntriesFrom(rows: seq<CommandRow>, e: Entry)
    requires e in CommandEntries(rows)
    ensures e.kind in {Command, Flow, Event} && exists i :: 0 <= i < |rows| && rows[i].time == e.time
  {
    var front := rows[..|rows| - 1];
    if e in CommandEntries(front) {
      CommandEntriesFrom(front, e);
      var i :| 0 <= i < |front| && front[i].time == e.time;
      assert rows[i].time == e.time;
    } else {
      assert rows[|rows| - 1].time == e.time;
    }
  }

  lemma {:induction false} CommandEntriesOrdered(rows: seq<CommandRow>)
    requires NewestFirstLog(rows)
    ensures Ordered(CommandEntries(rows))
  {
    if rows != [] {
      var front, last := rows[..|rows| - 1], rows[|rows| - 1];
      CommandEntriesOrdered(front);
      var before := CommandEntries(front);
      forall i | 0 <= i < |before| ensures before[i].time >= last.time {
        CommandEntriesFrom(front, before[i]);
      }
    }
  }

  /** Fetching what is older than the cursor loses nothing that the cursor would show. */
  lemma {:induction false} OlderRowsSuffice(log: seq<CommandRow>, before: Option<int>, filter: Option<Entry -> bool>)
    ensures Keep(Selected(before, filter), CommandEntries(RowsOlder(log, before)))
            == Keep(Selected(before, filter), CommandEntries(log))
  {
    if log != [] {
      var f, x, rest := Selected(before, filter), log[0], log[1..];
      OlderRowsSuffice(rest, before, filter);
      assert log == [x] + rest;
      CommandEntriesConcat([x], rest);
      KeepConcat(f, CommandEntries([x]), CommandEntries(rest));
      if RowIsOlder(x, before) {
        CommandEntriesConcat([x], RowsOlder(rest, before));
        KeepConcat(f, CommandEntries([x]), CommandEntries(RowsOlder(rest, before)));
      } else {
        KeepNoneOfOne(f, x);
        assert [] + RowsOlder(rest, before) == RowsOlder(rest, before);
      }
    }
  }

  lemma KeepNoneOfOne(f: Entry -> bool, row: CommandRow)
    requires row.payload.Other? ==> !f(CommandEntry(row))
    ensures Keep(f, CommandEntries([row])) == []
  {
    assert [row][..0] == [];
    assert CommandEntries([row]) == if row.payload.Other? then [CommandEntry(row)] else [];
  }

  lemma {:induction false} RowsOlderOrdered(log: seq<CommandRow>, before: Option<int>)
    requires NewestFirstLog(log)
    ensures NewestFirstLog(RowsOlder(log, before))
    ensures forall row :: row in RowsOlder(log, before) ==> row in log
  {
    if log != [] {
      RowsOlderOrdered(log[1..], before);
      var rest := RowsOlder(log[1..], before);
      forall j | 0 <= j < |rest| ensures log[0].time >= rest[j].time {
        assert rest[j] in log[1..];
      }
    }
  }

  /** The selected command entries on the fetched page, and those beyond it. */
  function Shown(stores: Stores, limit: nat, before: Option<int>, filter: Option<Entry -> bool>): seq<Entry> {
    Keep(Selected(before, filter), CommandEntries(Fetched(stores.log, SourceLimit(limit, filter.Some?), before)))
  }

  function Lost(stores: Stores, limit: nat, before: Option<int>, filter: Option<Entry -> bool>): seq<Entry> {
    var rows, n := RowsOlder(stores.log, before), SourceLimit(limit, filter.Some?);
    Keep(Selected(before, filter), CommandEntries(if |rows| <= n then [] else rows[n..]))
  }

  lemma ShownAndLost(stores: Stores, limit: nat, before: Option<int>, filter: Option<Entry -> bool>)
    requires NewestFirstLog(stores.log)
    ensures Shown(stores, limit, before, filter) + Lost(stores, limit, before, filter)
            == Keep(Selected(before, filter), CommandEntries(stores.log))
    ensures Ordered(Shown(stores, limit, before, filter) + Lost(stores, limit, before, filter))
  {
    var f, rows := Selected(before, filter), RowsOlder(stores.log, before);
    var kept := Fetched(stores.log, SourceLimit(limit, filter.Some?), before);
    var rest := rows[|kept|..];
    assert rows == kept + rest;
    CommandEntriesConcat(kept, rest);
    KeepConcat(f, CommandEntries(kept), CommandEntries(rest));
    OlderRowsSuffice(stores.log, before, filter);
    CommandEntriesOrdered(stores.log);
    KeepOrdered(f, CommandEntries(stores.log));
  }

  lemma KeepSortIsMerge(f: Entry -> bool, a: seq<Entry>, b: seq<Entry>)
    requires Ordered(a)
    ensures Keep(f, StableSort(a + b)) == Merge(Keep(f, a), Keep(f, StableSort(b)))
  {
    SortIsMerge(a, b);
    StableSortSorts(b);
    KeepMerge(f, a, StableSort(b));
  }

  lemma FetchedOrdered(stores: Stores, limit: nat, before: Option<int>)
    requires NewestFirstLog(stores.log)
    ensures Ordered(CommandEntries(Fetched(stores.log, limit, before)))
  {
    RowsOlderOrdered(stores.log, before);
    CommandEntriesOrdered(Fetched(stores.log, limit, before));
  }

  lemma LostAreCommands(stores: Stores, limit: nat, before: Option<int>, filter: Option<Entry -> bool>)
    ensures forall e :: e in Lost(stores, limit, before, filter) ==> e.kind in {Command, Flow, Event}
  {
    var f, rows, n := Selected(before, filter), RowsOlder(stores.log, before), SourceLimit(limit, filter.Some?);
    var rest := if |rows| <= n then [] else rows[n..];
    KeepMembers(f, CommandEntries(rest));
    forall e | e in Lost(stores, limit, before, filter) ensures e.kind in {Command, Flow, Event} {
      CommandEntriesFrom(rest, e);
    }
  }

  lemma GovernanceIsNotCommands(f: Entry -> bool, stores: Stores, actors: Actors)
    ensures forall e :: e in Keep(f, StableSort(Governance(stores, actors))) ==> e.kind in {Proposal, Agreement}
  {
    var others := Governance(stores, actors);
    StableSortSorts(others);
    KeepMembers(f, StableSort(others));
    forall e | e in StableSort(others) ensures e in others {
      assert e in multiset(StableSort(others));
    }
  }

  /**
   * With the same known actors: truncating the command source leaves the first `n` entries what the whole
   * log would show if and only if nothing selected was lost, or they all come before the first lost one.
   */
  lemma TruncationShowsIff(stores: Stores, limit: nat, before: Option<int>, filter: Option<Entry -> bool>, n: nat)
    requires NewestFirstLog(stores.log)
    ensures Take(Unsliced(stores, limit, before, filter), n)
            == Take(WholeFeed(stores, PageActors(stores, limit, before, filter), before, filter), n)
            <==> LossLiesBeyond(stores, limit, before, filter, n)
  {
    UnslicedIsMerge(stores, limit, before, filter);
    WholeIsMerge(stores, limit, before, filter, PageActors(stores, limit, before, filter));
    ShownAndLost(stores, limit, before, filter);
    LostAreCommands(stores, limit, before, filter);
    OthersAreGovernance(stores, PageActors(stores, limit, before, filter), before, filter);
    TruncationIsExactIff(Shown(stores, limit, before, filter), Lost(stores, limit, before, filter),
                         Others(stores, PageActors(stores, limit, before, filter), before, filter), n);
  }

  /** The actors that the fetched page names. */
  function PageActors(stores: Stores, limit: nat, before: Option<int>, filter: Option<Entry -> bool>): Actors {
    ActorsOf(Fetched(stores.log, SourceLimit(limit, filter.Some?), before))
  }

  /** The feed before it is cut to the limit. */
  function Unsliced(stores: Stores, limit: nat, before: Option<int>, filter: Option<Entry -> bool>): seq<Entry> {
    var rows := Fetched(stores.log, SourceLimit(limit, filter.Some?), before);
    Keep(Selected(before, filter), StableSort(CommandEntries(rows) + Governance(stores, ActorsOf(rows))))
  }

  /** The selected entries of proposals and agreements. */
  function Others(stores: Stores, actors: Actors, before: Option<int>, filter: Option<Entry -> bool>): seq<Entry> {
    Keep(Selected(before, filter), StableSort(Governance(stores, actors)))
  }

  /** No selected command was lost, or the first lost one belongs behind the first `n` entries. */
  predicate LossLiesBeyond(stores: Stores, limit: nat, before: Option<int>, filter: Option<Entry -> bool>, n: nat) {
    var shown, lost := Shown(stores, limit, before, filter), Lost(stores, limit, before, filter);
    var others := Others(stores, PageActors(stores, limit, before, filter), before, filter);
    lost == [] || |shown| + NewerThan(others, lost[0].time) >= n
  }

  lemma OthersAreGovernance(stores: Stores, actors: Actors, before: Option<int>, filter: Option<Entry -> bool>)
    ensures Ordered(Others(stores, actors, before, filter))
    ensures forall e :: e in Others(stores, actors, before, filter) ==> e.kind in {Proposal, Agreement}
  {
    GovernanceIsNotCommands(Selected(before, filter), stores, actors);
    StableSortSorts(Governance(stores, actors));
    KeepOrdered(Selected(before, filter), StableSort(Governance(stores, actors)));
  }

  lemma UnslicedIsMerge(stores: Stores, limit: nat, before: Option<int>, filter: Option<Entry -> bool>)
    requires NewestFirstLog(stores.log)
    ensures Unsliced(stores, limit, before, filter)
         == Merge(Shown(stores, limit, before, filter),
                  Others(stores, PageActors(stores, limit, before, filter), before, filter))
  {
    var m := SourceLimit(limit, filter.Some?);
    var rows := Fetched(stores.log, m, before);
    FetchedOrdered(stores, m, before);
    KeepSortIsMerge(Selected(before, filter), CommandEntries(rows), Governance(stores, ActorsOf(rows)));
  }

  lemma WholeIsMerge(stores: Stores, limit: nat, before: Option<int>, filter: Option<Entry -> bool>, actors: Actors)
    requires NewestFirstLog(stores.log)
    ensures WholeFeed(stores, actors, before, filter)
         == Merge(Shown(stores, limit, before, filter) + Lost(stores, limit, before, filter),
                  Others(stores, actors, before, filter))
  {
    CommandEntriesOrdered(stores.log);
    KeepSortIsMerge(Selected(before, filter), CommandEntries(stores.log), Governance(stores, actors));
    ShownAndLost(stores, limit, before, filter);
  }

  // ---- Pages without transition rows ----------------------------------------------------------------

  ghost predicate NoTransitions(rows: seq<CommandRow>) {
    forall i :: 0 <= i < |rows| ==> rows[i].payload.Other?
  }

  lemma {:induction false} WithoutTransitions(rows: seq<CommandRow>)
    requires NoTransitions(rows)
    ensures |CommandEntries(rows)| == |rows| && ActorsOf(rows) == map[]
  {
    if rows != [] {
      WithoutTransitions(rows[..|rows| - 1]);
    }
  }

  lemma {:induction false} RowsOlderAreOlder(log: seq<CommandRow>, before: Option<int>)
    ensures forall row :: row in RowsOlder(log, before) ==> row in log && RowIsOlder(row, before)
  {
    if log != [] {
      RowsOlderAreOlder(log[1..], before);
      assert log == [log[0]] + log[1..];
    }
  }

  /** Nothing is filtered out: no filter, or one that accepts everything on a page within the hard cap. */
  ghost predicate PassesAll(filter: Option<Entry -> bool>, limit: nat) {
    filter.None? || (limit <= MAX_LIMIT && forall e :: filter.value(e))
  }

  lemma FetchedAreShown(stores: Stores, limit: nat, before: Option<int>, filter: Option<Entry -> bool>)
    requires PassesAll(filter, limit)
    ensures Shown(stores, limit, before, filter) == CommandEntries(Fetched(stores.log, SourceLimit(limit, filter.Some?), before))
  {
    var rows := Fetched(stores.log, SourceLimit(limit, filter.Some?), before);
    RowsOlderAreOlder(stores.log, before);
    forall e | e in CommandEntries(rows) ensures Selected(before, filter)(e) {
      CommandEntriesFrom(rows, e);
      var i :| 0 <= i < |rows| && rows[i].time == e.time;
      assert rows[i] in RowsOlder(stores.log, before);
    }
    KeepAll(Selected(before, filter), CommandEntries(rows));
  }

  /** Without a transition row on the fetched page and with nothing filtered out, no loss shows on a page. */
  lemma NoLossWithoutTransitions(stores: Stores, limit: nat, before: Option<int>, filter: Option<Entry -> bool>)
    requires NewestFirstLog(stores.log) && PassesAll(filter, limit)
    requires NoTransitions(Fetched(stores.log, SourceLimit(limit, filter.Some?), before))
    ensures LossLiesBeyond(stores, limit, before, filter, limit)
  {
    WithoutTransitions(Fetched(stores.log, SourceLimit(limit, filter.Some?), before));
    FetchedAreShown(stores, limit, before, filter);
    if |RowsOlder(stores.log, before)| <= SourceLimit(limit, filter.Some?) {
      assert Lost(stores, limit, before, filter) == [];
    }
  }

  // ---- Who acted --------------------------------------------------------------------------------------

  ghost predicate IsLatest(rows: seq<CommandRow>, i: int, agreement: string, to: string) {
    && 0 <= i < |rows| && Names(rows[i], agreement, to)
    && forall j :: 0 <= j < |rows| && Names(rows[j], agreement, to) ==>
         rows[j].time < rows[i].time || (rows[j].time == rows[i].time && j <= i)
  }

  /**
   * The recorded actor of a status is that of the latest audit row that set it. Among rows of the same
   * time it is the last one read, which in the store's order is the earliest written.
   */
  lemma {:induction false} ActorIsOfTheLatest(rows: seq<CommandRow>, agreement: string, to: string)
    ensures var actors := ActorsOf(rows);
            if (agreement, to) in actors then
              exists i :: IsLatest(rows, i, agreement, to)
                          && actors[(agreement, to)] == Acted(rows[i].actor, rows[i].time)
            else forall j :: 0 <= j < |rows| ==> !Names(rows[j], agreement, to)
  {
    if rows != [] {
      var front, last := rows[..|rows| - 1], |rows| - 1;
      ActorIsOfTheLatest(front, agreement, to);
      var before, actors := ActorsOf(front), ActorsOf(rows);
      if (agreement, to) in before {
        var i :| IsLatest(front, i, agreement, to) && before[(agreement, to)] == Acted(front[i].actor, front[i].time);
        if Names(rows[last], agreement, to) && rows[last].time >= rows[i].time {
          assert IsLatest(rows, last, agreement, to);
        } else {
          assert IsLatest(rows, i, agreement, to);
        }
      } else if Names(rows[last], agreement, to) {
        assert IsLatest(rows, last, agreement, to);
      }
    }
  }

  /** An agreement whose entry names who closed it. */
  predicate ShowsCloser(row: AgreementRow) {
    row.visible && row.status != "countered" && row.status != "proposed"
  }

  lemma EntriesAgreeIff(row: AgreementRow, a: Actors, b: Actors)
    ensures AgreementEntries(row, a) == AgreementEntries(row, b) <==> (ShowsCloser(row) ==> ClosedBy(row, a) == ClosedBy(row, b))
    ensures |AgreementEntries(row, a)| == |AgreementEntries(row, b)|
  {
    if ShowsCloser(row) {
      assert AgreementEntries(row, a)[1].actor == ClosedBy(row, a);
      assert AgreementEntries(row, b)[1].actor == ClosedBy(row, b);
    }
  }

  lemma {:induction false} AttributionsAgreeIff(rows: seq<AgreementRow>, a: Actors, b: Actors)
    ensures |AllAgreementEntries(rows, a)| == |AllAgreementEntries(rows, b)|
    ensures AllAgreementEntries(rows, a) == AllAgreementEntries(rows, b)
            <==> forall row :: row in rows && ShowsCloser(row) ==> ClosedBy(row, a) == ClosedBy(row, b)
  {
    if rows != [] {
      var front, last := rows[..|rows| - 1], rows[|rows| - 1];
      assert rows == front + [last];
      AttributionsAgreeIff(front, a, b);
      EntriesAgreeIff(last, a, b);
      SameParts(AllAgreementEntries(front, a), AgreementEntries(last, a), AllAgreementEntries(front, b), AgreementEntries(last, b));
    }
  }

  lemma SameParts(a: seq<Entry>, b: seq<Entry>, c: seq<Entry>, d: seq<Entry>)
    requires |a| == |c| && |b| == |d|
    ensures a + b == c + d <==> a == c && b == d
  {
    if a + b == c + d {
      assert a == (a + b)[..|a|] && b == (a + b)[|a|..];
      assert c == (c + d)[..|c|] && d == (c + d)[|c|..];
    }
  }

  /** What proposals and agreements contribute is the same for two tables of actors if and only if they name the same closers. */
  lemma GovernanceAgreesIff(stores: Stores, a: Actors, b: Actors)
    ensures Governance(stores, a) == Governance(stores, b)
            <==> forall row :: row in stores.agreements && ShowsCloser(row) ==> ClosedBy(row, a) == ClosedBy(row, b)
  {
    AttributionsAgreeIff(stores.agreements, a, b);
    SameParts(AllProposalEntries(stores.proposals), AllAgreementEntries(stores.agreements, a),
              AllProposalEntries(stores.proposals), AllAgreementEntries(stores.agreements, b));
  }
}
