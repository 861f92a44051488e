/**
 * `data_mangement.py`: `DataManager`, a list of registers that is filtered by
 * time of day and grouped in place.
 */
module DataManagement {
  import opened Wrappers
  import opened Builtins
  import opened DateTimes
  import opened Registers
  import opened InputInterface

  predicate AllNormal(s: seq<BSRegister>)
  {
    forall k :: 0 <= k < |s| ==> Normal(s[k])
  }

  // ---------------------------------------------------------------------------
  // Sorting on a key, as `list.sort(key=...)` does

  predicate SortedBy<T>(key: T -> int, s: seq<T>)
  {
    forall i, j :: 0 <= i < j < |s| ==> key(s[i]) <= key(s[j])
  }

  /** `x` placed after every element of `s` whose key is not larger than its own. */
  function InsertBy<T>(key: T -> int, s: seq<T>, x: T): (r: seq<T>)
    ensures |r| == |s| + 1 && multiset(r) == multiset(s) + multiset{x}
    ensures forall k :: 0 <= k < |r| ==> r[k] == x || r[k] in s
  {
    if s == [] || key(s[|s| - 1]) <= key(x) then s + [x]
    else
      var n := |s| - 1;
      assert s == s[..n] + [s[n]];
      InsertBy(key, s[..n], x) + [s[n]]
  }

  /** A stable insertion sort on `key`: equal keys keep their order. */
  function SortBy<T>(key: T -> int, s: seq<T>): (r: seq<T>)
    ensures |r| == |s| && multiset(r) == multiset(s)
  {
    if s == [] then []
    else
      var n := |s| - 1;
      assert s == s[..n] + [s[n]];
      InsertBy(key, SortBy(key, s[..n]), s[n])
  }

  /** Inserting into a sorted list keeps it sorted. */
  lemma {:induction false} InsertBySorted<T>(key: T -> int, s: seq<T>, x: T)
    requires SortedBy(key, s)
    ensures SortedBy(key, InsertBy(key, s, x))
  {
    var r := InsertBy(key, s, x);
    if s == [] || key(s[|s| - 1]) <= key(x) {
      assert r == s + [x];
      forall i, j | 0 <= i < j < |r|
        ensures key(r[i]) <= key(r[j])
      {
        if j == |s| {
          assert key(s[i]) <= key(s[|s| - 1]);
        }
      }
    } else {
      var n := |s| - 1;
      var front := InsertBy(key, s[..n], x);
      assert SortedBy(key, s[..n]);
      InsertBySorted(key, s[..n], x);
      assert r == front + [s[n]];
      forall k | 0 <= k < |front|
        ensures key(front[k]) <= key(s[n])
      {
        if front[k] != x {
          var j :| 0 <= j < n && s[..n][j] == front[k];
        }
      }
      forall i, j | 0 <= i < j < |r|
        ensures key(r[i]) <= key(r[j])
      {
        if j < |front| {
          assert r[i] == front[i] && r[j] == front[j];
        }
      }
    }
  }

  /** The sort's result is sorted on the key (and, by its contract, a permutation of its input). */
  lemma {:induction false} SortBySorted<T>(key: T -> int, s: seq<T>)
    ensures SortedBy(key, SortBy(key, s))
  {
    if s != [] {
      var n := |s| - 1;
      SortBySorted(key, s[..n]);
      InsertBySorted(key, SortBy(key, s[..n]), s[n]);
    }
  }

  /** A permutation of normal registers holds only normal registers. */
  lemma PermutationNormal(s: seq<BSRegister>, r: seq<BSRegister>)
    requires AllNormal(s) && multiset(r) == multiset(s)
    ensures AllNormal(r)
  {
    forall k | 0 <= k < |r|
      ensures Normal(r[k])
    {
      assert r[k] in multiset(s);
      var j :| 0 <= j < |s| && s[j] == r[k];
    }
  }

  /**
   * The key `lambda x: (x.date, x.time)`: a normal register's minute count,
   * which orders normal registers as their dates and times do.
   */
  function TimeKey(r: BSRegister): int
  {
    if Normal(r) then EpochMinutes(r.moment) else 0
  }

  /** Comparing keys is comparing registers with `<`. */
  lemma KeyOrder(a: BSRegister, b: BSRegister)
    requires Normal(a) && Normal(b)
    ensures TimeKey(a) < TimeKey(b) <==> Less(a, b)
  {
    LessIffEarlier(a, b);
  }

  /** How far apart two keys are. */
  function Gap<T>(key: T -> int, a: T, b: T): nat
  {
    if key(a) <= key(b) then key(b) - key(a) else key(a) - key(b)
  }

  /** `a.distance(b)` is the gap between the registers' keys. */
  lemma DistanceIsGap(a: BSRegister, b: BSRegister)
    requires Normal(a) && Normal(b)
    ensures Distance(a, b) == Gap(TimeKey, a, b)
  {
  }

  // ---------------------------------------------------------------------------
  // filter_times

  /** `time1 <= register.time <= time2`. */
  predicate Between(t1: Time, t2: Time, r: BSRegister)
  {
    TimeAtMost(t1, r.TimeOf()) && TimeAtMost(r.TimeOf(), t2)
  }

  /** The registers `filter_times` keeps, in their order. */
  function FilteredByTime(s: seq<BSRegister>, t1: Time, t2: Time): seq<BSRegister>
  {
    if s == [] then []
    else
      var n := |s| - 1;
      FilteredByTime(s[..n], t1, t2) + if Between(t1, t2, s[n]) then [s[n]] else []
  }

  /** Exactly the registers whose time lies between the bounds are kept. */
  lemma {:induction false} FilterTimesMembers(s: seq<BSRegister>, t1: Time, t2: Time, x: BSRegister)
    ensures x in FilteredByTime(s, t1, t2) <==> x in s && Between(t1, t2, x)
  {
    if s != [] {
      var n := |s| - 1;
      FilterTimesMembers(s[..n], t1, t2, x);
      assert s == s[..n] + [s[n]];
    }
  }

  /** Filtering a concatenation filters each part in turn: the kept registers keep their order. */
  lemma {:induction false} FilterTimesAppend(a: seq<BSRegister>, b: seq<BSRegister>, t1: Time, t2: Time)
    ensures FilteredByTime(a + b, t1, t2) == FilteredByTime(a, t1, t2) + FilteredByTime(b, t1, t2)
  {
    if b != [] {
      var n := |b| - 1;
      FilterTimesAppend(a, b[..n], t1, t2);
      assert (a + b)[..|a + b| - 1] == a + b[..n];
    } else {
      assert a + b == a;
    }
  }

  /** The list never grows. */
  lemma {:induction false} FilterTimesShrinks(s: seq<BSRegister>, t1: Time, t2: Time)
    ensures |FilteredByTime(s, t1, t2)| <= |s|
  {
    if s != [] {
      FilterTimesShrinks(s[..|s| - 1], t1, t2);
    }
  }

  /** A second filter with the same bounds changes nothing. */
  lemma {:induction false} FilterTimesIdempotent(s: seq<BSRegister>, t1: Time, t2: Time)
    ensures FilteredByTime(FilteredByTime(s, t1, t2), t1, t2) == FilteredByTime(s, t1, t2)
  {
    if s != [] {
      var n := |s| - 1;
      var front := FilteredByTime(s[..n], t1, t2);
      FilterTimesIdempotent(s[..n], t1, t2);
      var tail := if Between(t1, t2, s[n]) then [s[n]] else [];
      FilterTimesAppend(front, tail, t1, t2);
      assert FilteredByTime(tail, t1, t2) == tail by {
        if tail != [] {
          assert tail[..0] == [];
        }
      }
    }
  }

  // ---------------------------------------------------------------------------
  // group

  /**
   * Where the inner loop of `group` stops when the group starts at `i` and
   * the scan is at `k`: the first index whose element is `epsilon` or more
   * from `s[i]`, or the end of the list.
   */
  function GroupEnd<T>(key: T -> int, s: seq<T>, i: nat, k: nat, epsilon: int): (e: nat)
    requires i < |s| && i <= k <= |s|
    ensures k <= e <= |s|
    ensures forall j :: k <= j < e ==> Gap(key, s[i], s[j]) < epsilon
    ensures e < |s| ==> Gap(key, s[i], s[e]) >= epsilon
    decreases |s| - k
  {
    if k == |s| || Gap(key, s[i], s[k]) >= epsilon then k else GroupEnd(key, s, i, k + 1, epsilon)
  }

  /** The groups the outer loop of `group` forms from index `i` on. */
  function GroupsFrom<T>(key: T -> int, s: seq<T>, i: nat, epsilon: int): (gs: seq<seq<T>>)
    requires i <= |s| && epsilon > 0
    ensures |gs| <= |s| - i
    ensures forall m :: 0 <= m < |gs| ==> gs[m] != []
    decreases |s| - i
  {
    if i == |s| then []
    else
      var e := GroupEnd(key, s, i, i, epsilon);
      [s[i..e]] + GroupsFrom(key, s, e, epsilon)
  }

  function Flatten<T>(gs: seq<seq<T>>): seq<T>
  {
    if gs == [] then [] else gs[0] + Flatten(gs[1..])
  }

  /** The groups, put back together, are the list: each is a contiguous run of it. */
  lemma {:induction false} GroupsCover<T>(key: T -> int, s: seq<T>, i: nat, epsilon: int)
    requires i <= |s| && epsilon > 0
    ensures Flatten(GroupsFrom(key, s, i, epsilon)) == s[i..]
    decreases |s| - i
  {
    if i < |s| {
      var e := GroupEnd(key, s, i, i, epsilon);
      GroupsCover(key, s, e, epsilon);
      var gs := GroupsFrom(key, s, i, epsilon);
      assert gs[0] == s[i..e] && gs[1..] == GroupsFrom(key, s, e, epsilon);
      assert s[i..] == s[i..e] + s[e..];
    }
  }

  /**
   * Every element of a group is less than `epsilon` from the group's first
   * element, and the first element of the next group is not.
   */
  lemma {:induction false} GroupsClose<T>(key: T -> int, s: seq<T>, i: nat, epsilon: int)
    requires i <= |s| && epsilon > 0
    ensures forall m, j :: 0 <= m < |GroupsFrom(key, s, i, epsilon)| && 0 <= j < |GroupsFrom(key, s, i, epsilon)[m]| ==>
              Gap(key, GroupsFrom(key, s, i, epsilon)[m][0], GroupsFrom(key, s, i, epsilon)[m][j]) < epsilon
    ensures forall m :: 0 <= m < |GroupsFrom(key, s, i, epsilon)| - 1 ==>
              Gap(key, GroupsFrom(key, s, i, epsilon)[m][0], GroupsFrom(key, s, i, epsilon)[m + 1][0]) >= epsilon
    decreases |s| - i
  {
    if i < |s| {
      var e := GroupEnd(key, s, i, i, epsilon);
      GroupsClose(key, s, e, epsilon);
      var gs := GroupsFrom(key, s, i, epsilon);
      var rest := GroupsFrom(key, s, e, epsilon);
      assert gs == [s[i..e]] + rest;
      forall m, j | 0 <= m < |gs| && 0 <= j < |gs[m]|
        ensures Gap(key, gs[m][0], gs[m][j]) < epsilon
      {
        if m == 0 {
          assert gs[0][0] == s[i] && gs[0][j] == s[i + j];
        } else {
          assert gs[m] == rest[m - 1];
        }
      }
      forall m | 0 <= m < |gs| - 1
        ensures Gap(key, gs[m][0], gs[m + 1][0]) >= epsilon
      {
        if m == 0 {
          assert gs[0][0] == s[i] && gs[1] == rest[0];
          assert rest[0][0] == s[e];
        } else {
          assert gs[m] == rest[m - 1] && gs[m + 1] == rest[m];
        }
      }
    }
  }

  /**
   * On a sorted list a group holds every element within `epsilon` of its
   * first one: every element after the group is `epsilon` or more away.
   */
  lemma GroupEndMaximal<T>(key: T -> int, s: seq<T>, i: nat, epsilon: int)
    requires SortedBy(key, s) && i < |s| && epsilon > 0
    ensures var e := GroupEnd(key, s, i, i, epsilon);
      forall j :: e <= j < |s| ==> Gap(key, s[i], s[j]) >= epsilon
  {
    var e := GroupEnd(key, s, i, i, epsilon);
    if e < |s| {
      assert key(s[i]) <= key(s[e]);
    }
  }

  /** An element of a group is an element of the list. */
  lemma {:induction false} GroupMember<T>(key: T -> int, s: seq<T>, i: nat, epsilon: int, m: nat, j: nat)
    requires i <= |s| && epsilon > 0
    requires m < |GroupsFrom(key, s, i, epsilon)| && j < |GroupsFrom(key, s, i, epsilon)[m]|
    ensures GroupsFrom(key, s, i, epsilon)[m][j] in s
    decreases |s| - i
  {
    var e := GroupEnd(key, s, i, i, epsilon);
    var gs := GroupsFrom(key, s, i, epsilon);
    if m > 0 {
      GroupMember(key, s, e, epsilon, m - 1, j);
      assert gs[m] == GroupsFrom(key, s, e, epsilon)[m - 1];
    } else {
      assert gs[0][j] == s[i + j];
    }
  }

  /** `[selector(x) for x in groups]`. */
  function Picks<T>(gs: seq<seq<T>>, selector: seq<T> --> T): (r: seq<T>)
    requires forall m :: 0 <= m < |gs| ==> selector.requires(gs[m])
    ensures |r| == |gs|
    ensures forall m :: 0 <= m < |gs| ==> r[m] == selector(gs[m])
  {
    if gs == [] then [] else [selector(gs[0])] + Picks(gs[1..], selector)
  }

  /** The list `group(epsilon, selector)` leaves. */
  function Grouped(s: seq<BSRegister>, epsilon: int, selector: seq<BSRegister> --> BSRegister): (r: seq<BSRegister>)
    requires epsilon > 0
    requires forall g :: g != [] ==> selector.requires(g)
  {
    var gs := GroupsFrom(TimeKey, SortBy(TimeKey, s), 0, epsilon);
    SortBy(TimeKey, Picks(gs, selector))
  }

  /**
   * What `group` leaves is sorted, holds one pick per group and so is never
   * longer than the list, and holds normal registers when the selector picks
   * one from a group of them.
   */
  lemma GroupedShape(s: seq<BSRegister>, epsilon: int, selector: seq<BSRegister> --> BSRegister)
    requires AllNormal(s) && epsilon > 0
    requires forall g :: g != [] ==> selector.requires(g)
    requires forall g :: g != [] && AllNormal(g) ==> Normal(selector(g))
    ensures var r := Grouped(s, epsilon, selector);
      SortedBy(TimeKey, r) && |r| == |GroupsFrom(TimeKey, SortBy(TimeKey, s), 0, epsilon)| <= |s| && AllNormal(r)
  {
    var sorted := SortBy(TimeKey, s);
    PermutationNormal(s, sorted);
    var gs := GroupsFrom(TimeKey, sorted, 0, epsilon);
    forall m | 0 <= m < |gs|
      ensures Normal(selector(gs[m]))
    {
      forall j | 0 <= j < |gs[m]|
        ensures Normal(gs[m][j])
      {
        GroupMember(TimeKey, sorted, 0, epsilon, m, j);
      }
    }
    var picks := Picks(gs, selector);
    SortBySorted(TimeKey, picks);
    PermutationNormal(picks, SortBy(TimeKey, picks));
  }

  // ---------------------------------------------------------------------------
  // max

  /** `max` over what is left of an iteration: an item replaces the best so far only when strictly later. */
  function MaxFrom(best: BSRegister, rest: seq<BSRegister>): (m: BSRegister)
    ensures m == best || m in rest
    decreases |rest|
  {
    if rest == [] then best
    else MaxFrom(if Less(best, rest[0]) then rest[0] else best, rest[1..])
  }

  /** The default selector `max`, using the registers' `<`. */
  function MaxOf(g: seq<BSRegister>): (m: BSRegister)
    requires g != []
    ensures m in g
  {
    MaxFrom(g[0], g[1..])
  }

  /** `max` picks a latest register: none of those it saw is later than the pick. */
  lemma {:induction false} MaxFromIsLatest(best: BSRegister, rest: seq<BSRegister>)
    requires Normal(best) && AllNormal(rest)
    ensures !Less(MaxFrom(best, rest), best)
    ensures forall j :: 0 <= j < |rest| ==> !Less(MaxFrom(best, rest), rest[j])
    decreases |rest|
  {
    var m := MaxFrom(best, rest);
    if rest == [] {
      LessStrictOrder(best, best, best);
    } else {
      var next := if Less(best, rest[0]) then rest[0] else best;
      MaxFromIsLatest(next, rest[1..]);
      assert m == MaxFrom(next, rest[1..]);
      assert Normal(m) by {
        if m != best && m != next {
          var j :| 0 <= j < |rest[1..]| && rest[1..][j] == m;
        }
      }
      LessStrictOrder(m, best, rest[0]);
      LessStrictOrder(m, rest[0], best);
      LessStrictOrder(best, rest[0], m);
      LessStrictOrder(rest[0], best, m);
      forall j | 1 <= j < |rest|
        ensures !Less(m, rest[j])
      {
        assert rest[j] == rest[1..][j - 1];
      }
    }
  }

  /**
   * `max` keeps the first of the latest: the pick is `best` or later than it,
   * and every scanned register at least as late as the pick has the pick at or
   * before it.
   */
  lemma {:induction false} MaxFromFirst(best: BSRegister, rest: seq<BSRegister>)
    requires Normal(best) && AllNormal(rest)
    ensures MaxFrom(best, rest) == best || Less(best, MaxFrom(best, rest))
    ensures forall j :: 0 <= j < |rest| && !Less(rest[j], MaxFrom(best, rest)) ==>
      (MaxFrom(best, rest) == best || MaxFrom(best, rest) in rest[..j + 1])
    decreases |rest|
  {
    if rest != [] {
      var m := MaxFrom(best, rest);
      var x := rest[0];
      var next := if Less(best, x) then x else best;
      MaxFromFirst(next, rest[1..]);
      assert m == MaxFrom(next, rest[1..]);
      assert Normal(m) by {
        if m != next {
          var k :| 0 <= k < |rest[1..]| && rest[1..][k] == m;
        }
      }
      LessIffEarlier(best, x);
      LessIffEarlier(x, m);
      LessIffEarlier(best, m);
      forall j | 1 <= j < |rest| && !Less(rest[j], m)
        ensures m == best || m in rest[..j + 1]
      {
        assert rest[j] == rest[1..][j - 1];
        assert rest[1..][..j] == rest[1..j + 1];
        assert x == rest[..j + 1][0];
      }
      assert x == rest[..1][0];
    }
  }

  /** Of several equally late registers, `max` returns the first. */
  lemma MaxOfFirst(g: seq<BSRegister>)
    requires g != [] && AllNormal(g)
    ensures forall j :: 0 <= j < |g| && !Less(g[j], MaxOf(g)) ==> MaxOf(g) in g[..j + 1]
  {
    MaxFromFirst(g[0], g[1..]);
    var m := MaxOf(g);
    forall j | 0 <= j < |g| && !Less(g[j], m)
      ensures m in g[..j + 1]
    {
      assert g[0] == g[..j + 1][0];
      if j > 0 {
        assert g[j] == g[1..][j - 1];
        assert g[1..][..j] == g[1..j + 1];
      }
    }
  }

  /** `max(group)` is a register of the group that no other register of the group is later than. */
  lemma MaxOfIsLatest(g: seq<BSRegister>)
    requires g != [] && AllNormal(g)
    ensures forall j :: 0 <= j < |g| ==> !Less(MaxOf(g), g[j])
  {
    MaxFromIsLatest(g[0], g[1..]);
    forall j | 1 <= j < |g|
      ensures !Less(MaxOf(g), g[j])
    {
      assert g[j] == g[1..][j - 1];
    }
  }

  /**
   * With `max` as selector, `group` keeps registers of the list only, one
   * per group, each being a latest register of its group.
   */
  lemma GroupedByMax(s: seq<BSRegister>, epsilon: int)
    requires AllNormal(s) && epsilon > 0
    ensures var gs := GroupsFrom(TimeKey, SortBy(TimeKey, s), 0, epsilon);
      multiset(Grouped(s, epsilon, MaxOf)) == multiset(Picks(gs, MaxOf))
      && forall m :: 0 <= m < |gs| ==> MaxOf(gs[m]) in s && forall j :: 0 <= j < |gs[m]| ==> !Less(MaxOf(gs[m]), gs[m][j])
  {
    var sorted := SortBy(TimeKey, s);
    PermutationNormal(s, sorted);
    var gs := GroupsFrom(TimeKey, sorted, 0, epsilon);
    forall m | 0 <= m < |gs|
      ensures MaxOf(gs[m]) in s && forall j :: 0 <= j < |gs[m]| ==> !Less(MaxOf(gs[m]), gs[m][j])
    {
      forall j | 0 <= j < |gs[m]|
        ensures gs[m][j] in s && Normal(gs[m][j])
      {
        GroupMember(TimeKey, sorted, 0, epsilon, m, j);
        assert gs[m][j] in multiset(s);
      }
      MaxOfIsLatest(gs[m]);
    }
  }

  // ---------------------------------------------------------------------------
  // DataManager

  /** A `DataManager`: a list of registers, changed in place by its methods. */
  class DataManager {
    var items: seq<BSRegister>

    predicate Valid()
      reads this
    {
      AllNormal(items)
    }

    /** A manager holding `items`, as `__add__` builds its result. */
    constructor (items: seq<BSRegister>)
      requires AllNormal(items)
      ensures this.items == items && Valid()
    {
      this.items := items;
    }

    /** `DataManager(line, stop_id, n)`: the registers `get_data` returns, or what it raises. */
    static method Load(rows: seq<Register>, line: PyValue, stopId: PyValue, n: PyValue)
      returns (r: Result<DataManager, PyError>)
      ensures r.Ok? <==> GetData(rows, line, stopId, n).Ok?
      ensures r.Ok? ==> fresh(r.value) && r.value.items == GetData(rows, line, stopId, n).value && r.value.Valid()
    {
      var got := GetData(rows, line, stopId, n);
      if got.Err? {
        return Err(got.error);
      }
      GetDataNormal(rows, line, stopId, n);
      var m := new DataManager(got.value);
      return Ok(m);
    }

    /** `self + other`: a new manager with this list followed by the other; neither operand changes. */
    method Add(other: DataManager) returns (sum: DataManager)
      requires Valid() && other.Valid()
      ensures fresh(sum) && sum.Valid()
      ensures sum.items == items + other.items
      ensures |sum.items| == |items| + |other.items|
    {
      sum := new DataManager(items + other.items);
    }

    /** `repr(self)`: `DataManager(\n` then the registers' texts joined by `,\n`, then `)`. */
    function Repr(): (s: string)
      requires Valid()
      reads this
      ensures |s| >= 14 && s[..13] == "DataManager(\n" && s[|s| - 1] == ')'
    {
      "DataManager(\n" + Join(ReprAll(items), ",\n") + ")"
    }

    /** `filter_times(time1, time2)`: keep the registers whose time lies in `[time1, time2]`. */
    method FilterTimes(t1: Time, t2: Time)
      modifies this
      ensures items == FilteredByTime(old(items), t1, t2)
      ensures old(Valid()) ==> Valid()
    {
      var o: seq<BSRegister> := [];
      for k := 0 to |items|
        invariant o == FilteredByTime(items[..k], t1, t2)
      {
        assert items[..k + 1][..k] == items[..k];
        var register := items[k];
        if TimeAtMost(t1, register.TimeOf()) && TimeAtMost(register.TimeOf(), t2) {
          o := o + [register];
        }
      }
      assert items[..|items|] == items;
      ghost var before := items;
      items := o;
      if AllNormal(before) {
        forall k | 0 <= k < |items|
          ensures Normal(items[k])
        {
          FilterTimesMembers(before, t1, t2, items[k]);
          var j :| 0 <= j < |before| && before[j] == items[k];
        }
      }
    }

    /**
     * `group(epsilon, selector)`: sort by time, cut the list into groups, keep
     * `selector`'s pick of each group, and sort again.
     */
    method Group(epsilon: int, selector: seq<BSRegister> --> BSRegister)
      modifies this
      requires Valid() && epsilon > 0
      requires forall g :: g != [] ==> selector.requires(g)
      requires forall g :: g != [] && AllNormal(g) ==> Normal(selector(g))
      ensures Valid()
      ensures items == Grouped(old(items), epsilon, selector)
    {
      GroupedShape(items, epsilon, selector);
      var sorted := SortBy(TimeKey, items);
      PermutationNormal(items, sorted);
      items := sorted;
      var groups := CutGroups(items, epsilon);
      items := Picks(groups, selector);
      items := SortBy(TimeKey, items);
    }
  }

  /**
   * The outer loop of `group`: cut a group at `i`, then go on from the first
   * register after it.
   */
  method CutGroups(s: seq<BSRegister>, epsilon: int) returns (groups: seq<seq<BSRegister>>)
    requires AllNormal(s) && epsilon > 0
    ensures groups == GroupsFrom(TimeKey, s, 0, epsilon)
  {
    groups := [];
    var i := 0;
    while i < |s|
      invariant 0 <= i <= |s|
      invariant groups + GroupsFrom(TimeKey, s, i, epsilon) == GroupsFrom(TimeKey, s, 0, epsilon)
      decreases |s| - i
    {
      var k, tempGroup := GatherGroup(s, i, epsilon);
      assert GroupsFrom(TimeKey, s, i, epsilon) == [tempGroup] + GroupsFrom(TimeKey, s, k, epsilon);
      i := k;
      groups := groups + [tempGroup];
    }
  }

  /**
   * The inner loop of `group`: gather the registers from `s[i]` on that are
   * less than `epsilon` minutes from `s[i]`, stopping at the first that is not
   * or at the end of the list.
   */
  method GatherGroup(s: seq<BSRegister>, i: nat, epsilon: int) returns (k: nat, tempGroup: seq<BSRegister>)
    requires AllNormal(s) && i < |s| && epsilon > 0
    ensures k == GroupEnd(TimeKey, s, i, i, epsilon) && k > i
    ensures tempGroup == s[i..k]
  {
    tempGroup := [];
    k := i;
    while Distance(s[i], s[k]) < epsilon
      invariant i <= k < |s| && tempGroup == s[i..k]
      invariant GroupEnd(TimeKey, s, i, k, epsilon) == GroupEnd(TimeKey, s, i, i, epsilon)
      decreases |s| - k
    {
      var next := s[k];
      DistanceIsGap(s[i], next);
      SliceExtend(s, i, k);
      tempGroup := tempGroup + [next];
      k := k + 1;
      if k == |s| {
        break;
      }
    }
    if k < |s| {
      DistanceIsGap(s[i], s[k]);
    }
  }

  lemma SliceExtend<T>(s: seq<T>, i: nat, k: nat)
    requires i <= k < |s|
    ensures s[i..k + 1] == s[i..k] + [s[k]]
  {
  }

  /** The registers' texts, each its register's `repr`, in list order. */
  function ReprAll(s: seq<BSRegister>): (r: seq<string>)
    requires AllNormal(s)
    ensures |r| == |s|
    ensures forall k :: 0 <= k < |s| ==> r[k] == InputInterface.Repr(s[k])
  {
    if s == [] then [] else [InputInterface.Repr(s[0])] + ReprAll(s[1..])
  }

  /** `get_data` builds only normal registers. */
  lemma GetDataNormal(rows: seq<Register>, line: PyValue, stopId: PyValue, n: PyValue)
    requires GetData(rows, line, stopId, n).Ok?
    ensures AllNormal(GetData(rows, line, stopId, n).value)
  {
  }
}
