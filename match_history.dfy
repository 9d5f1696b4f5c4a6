/** The match-history view: ordinal day suffixes, grouping of a page of matches by
    calendar day with the days shown newest first, the toast list, and the
    single-match edit and delete session. */
module MatchHistory {
  import opened Api

  // ---------------------------------------------------------------------------
  // Ordinal suffix of a day of the month
  // ---------------------------------------------------------------------------

  /** JavaScript's `%` on integers: the remainder takes the sign of the dividend. */
  function JsRem(a: int, b: int): (r: int)
    requires b > 0
    ensures a >= 0 ==> r == a % b
    ensures a < 0 ==> -b < r <= 0
  {
    if a >= 0 then a % b else -((-a) % b)
  }

  /** getOrdinalSuffix: "th" for 4..20, otherwise by the last digit. */
  function OrdinalSuffix(day: int): (s: string)
    ensures s == "st" <==> day == 1 || (day > 20 && day % 10 == 1)
    ensures s == "nd" <==> day == 2 || (day > 20 && day % 10 == 2)
    ensures s == "rd" <==> day == 3 || (day > 20 && day % 10 == 3)
    ensures s == "st" || s == "nd" || s == "rd" || s == "th"
  {
    if day > 3 && day < 21 then "th"
    else
      var last := JsRem(day, 10);
      if last == 1 then "st"
      else if last == 2 then "nd"
      else if last == 3 then "rd"
      else "th"
  }

  /** The English rule for ordinals: 11th, 12th and 13th, and otherwise the last digit decides. */
  function EnglishOrdinalSuffix(n: nat): string
  {
    if 11 <= n % 100 <= 13 then "th"
    else if n % 10 == 1 then "st"
    else if n % 10 == 2 then "nd"
    else if n % 10 == 3 then "rd"
    else "th"
  }

  /** On every day a calendar month has, the source's rule is the English rule. */
  lemma OrdinalSuffixOfCalendarDay(day: int)
    requires 1 <= day <= 31
    ensures OrdinalSuffix(day) == EnglishOrdinalSuffix(day)
  {
  }

  // ---------------------------------------------------------------------------
  // Grouping by day and the newest-first day order
  // ---------------------------------------------------------------------------

  predicate Distinct<T(==)>(s: seq<T>)
  {
    forall i, j :: 0 <= i < j < |s| ==> s[i] != s[j]
  }

  /** The day keys occurring in a list of matches. */
  function DaysOf(s: seq<MatchResult>): set<DayKey>
  {
    set m | m in s :: m.day
  }

  /** The matches of day k, in input order. */
  function OnDay(s: seq<MatchResult>, k: DayKey): (r: seq<MatchResult>)
    ensures |r| <= |s|
    ensures forall m :: m in r ==> m in s && m.day == k
  {
    if s == [] then []
    else
      var init := s[..|s| - 1];
      assert forall m :: m in init ==> m in s;
      OnDay(init, k) + (if s[|s| - 1].day == k then [s[|s| - 1]] else [])
  }

  /** The dictionary groupMatchesByDate builds: its keys in insertion order, and the
      list of matches stored under each key. */
  datatype Grouped = Grouped(order: seq<DayKey>, groups: map<DayKey, seq<MatchResult>>)

  /** g is what grouping `matches` by day yields. */
  predicate IsGroupingOf(matches: seq<MatchResult>, g: Grouped)
  {
    && g.groups.Keys == DaysOf(matches)
    && (forall k :: k in g.groups ==> g.groups[k] == OnDay(matches, k))
    && Distinct(g.order)
    && (forall k :: k in g.order ==> k in g.groups)
    && (forall k :: k in g.groups ==> k in g.order)
  }

  /** A day holds no match exactly when it is not one of the input's days, so no group is empty. */
  lemma {:induction false} OnDayEmptyIff(s: seq<MatchResult>, k: DayKey)
    ensures OnDay(s, k) == [] <==> k !in DaysOf(s)
  {
    if s != [] {
      var init := s[..|s| - 1];
      assert s == init + [s[|s| - 1]];
      assert DaysOf(s) == DaysOf(init) + {s[|s| - 1].day};
      OnDayEmptyIff(init, k);
    }
  }

  /** Every match of the input is in the group of its own day, and only there. */
  lemma {:induction false} OnDayPlacesEachMatch(s: seq<MatchResult>, m: MatchResult, k: DayKey)
    ensures m in OnDay(s, k) <==> m in s && m.day == k
  {
    if s != [] {
      var init := s[..|s| - 1];
      assert s == init + [s[|s| - 1]];
      OnDayPlacesEachMatch(init, m, k);
    }
  }

  lemma OnDayPush(prefix: seq<MatchResult>, m: MatchResult, k: DayKey)
    ensures OnDay(prefix + [m], k) == OnDay(prefix, k) + (if m.day == k then [m] else [])
  {
    var s := prefix + [m];
    assert s[..|s| - 1] == prefix;
  }

  lemma DaysPush(prefix: seq<MatchResult>, m: MatchResult)
    ensures DaysOf(prefix + [m]) == DaysOf(prefix) + {m.day}
  {
    var s := prefix + [m];
    forall d | d in DaysOf(s) ensures d in DaysOf(prefix) + {m.day} {
      var x :| x in s && x.day == d;
      if x != m {
        assert x in prefix;
      }
    }
    forall d | d in DaysOf(prefix) ensures d in DaysOf(s) {
      var x :| x in prefix && x.day == d;
      assert x in s;
    }
    assert m in s;
  }

  lemma DistinctPush<T>(s: seq<T>, x: T)
    requires Distinct(s) && x !in s
    ensures Distinct(s + [x])
  {
    forall i, j | 0 <= i < j < |s + [x]| ensures (s + [x])[i] != (s + [x])[j] {
      if j == |s| {
        assert (s + [x])[i] == s[i];
      }
    }
  }

  /** One iteration of groupMatchesByDate keeps the dictionary a grouping of the matches seen. */
  lemma GroupStep(prefix: seq<MatchResult>, m: MatchResult, g: Grouped, g': Grouped)
    requires IsGroupingOf(prefix, g)
    requires g'.order == if m.day in g.groups then g.order else g.order + [m.day]
    requires g'.groups == g.groups[m.day := (if m.day in g.groups then g.groups[m.day] else []) + [m]]
    ensures IsGroupingOf(prefix + [m], g')
  {
    var s := prefix + [m];
    DaysPush(prefix, m);
    if m.day !in g.groups {
      OnDayEmptyIff(prefix, m.day);
      DistinctPush(g.order, m.day);
    }
    forall k | k in g'.groups ensures g'.groups[k] == OnDay(s, k) {
      OnDayPush(prefix, m, k);
    }
  }

  /** groupMatchesByDate: a single pass that creates a list for each new day key and pushes every match onto its day's list. */
  method GroupMatchesByDate(matches: seq<MatchResult>) returns (g: Grouped)
    ensures IsGroupingOf(matches, g)
  {
    var order: seq<DayKey> := [];
    var groups: map<DayKey, seq<MatchResult>> := map[];
    for i := 0 to |matches|
      invariant IsGroupingOf(matches[..i], Grouped(order, groups))
    {
      var m := matches[i];
      ghost var before := Grouped(order, groups);
      if m.day !in groups {
        groups := groups[m.day := []];
        order := order + [m.day];
      }
      groups := groups[m.day := groups[m.day] + [m]];
      GroupStep(matches[..i], m, before, Grouped(order, groups));
      assert matches[..i + 1] == matches[..i] + [m];
    }
    assert matches[..|matches|] == matches;
    g := Grouped(order, groups);
  }

  predicate Descending(s: seq<int>)
  {
    forall i, j :: 0 <= i < j < |s| ==> s[i] >= s[j]
  }

  predicate StrictlyDescending(s: seq<int>)
  {
    forall i, j :: 0 <= i < j < |s| ==> s[i] > s[j]
  }

  /** In a descending list the head is at least every element. */
  lemma DescendingHeadIsMax(s: seq<int>, y: int)
    requires Descending(s) && y in s
    ensures s[0] >= y
    ensures StrictlyDescending(s) && y != s[0] ==> s[0] > y
  {
    var k :| 0 <= k < |s| && s[k] == y;
  }

  lemma ConsDescending(h: int, t: seq<int>)
    requires Descending(t)
    requires forall y :: y in t ==> y <= h
    ensures Descending([h] + t)
    ensures StrictlyDescending(t) && (forall y :: y in t ==> y < h) ==> StrictlyDescending([h] + t)
  {
    forall j | 1 <= j < |[h] + t| ensures ([h] + t)[j] == t[j - 1] && t[j - 1] in t {
    }
  }

  /** What the recursive case of InsertDescending puts after the head stays below it. */
  lemma InsertTailBelowHead(x: int, s: seq<int>, rest: seq<int>)
    requires Descending(s) && s != [] && x < s[0]
    requires multiset(rest) == multiset(s[1..]) + multiset{x}
    ensures forall y :: y in rest ==> y <= s[0]
    ensures StrictlyDescending(s) ==> forall y :: y in rest ==> y < s[0]
  {
    forall y | y in rest ensures y <= s[0] && (StrictlyDescending(s) ==> y < s[0]) {
      assert y in multiset(rest);
      if y != x {
        assert y in multiset(s[1..]);
        var k :| 0 <= k < |s[1..]| && s[1..][k] == y;
        assert s[k + 1] == y;
        DescendingHeadIsMax(s, y);
      }
    }
  }

  /** A key at least the head of a descending list is at least all of it. */
  lemma AboveHead(x: int, s: seq<int>)
    requires Descending(s)
    requires s == [] || x >= s[0]
    ensures forall y :: y in s ==> y <= x
    ensures x !in s ==> forall y :: y in s ==> y < x
  {
    forall y | y in s ensures y <= x {
      DescendingHeadIsMax(s, y);
    }
  }

  /** Inserts x into a newest-first list of keys. */
  function InsertDescending(x: int, s: seq<int>): (r: seq<int>)
    requires Descending(s)
    ensures Descending(r)
    ensures multiset(r) == multiset(s) + multiset{x}
    ensures StrictlyDescending(s) && x !in s ==> StrictlyDescending(r)
  {
    if s == [] || x >= s[0] then
      AboveHead(x, s);
      ConsDescending(x, s);
      [x] + s
    else
      assert s == [s[0]] + s[1..];
      var rest := InsertDescending(x, s[1..]);
      InsertTailBelowHead(x, s, rest);
      ConsDescending(s[0], rest);
      [s[0]] + rest
  }

  /** The `sortedDates` order: the keys sorted by descending date (most recent first). */
  function SortDates(keys: seq<DayKey>): (r: seq<DayKey>)
    ensures Descending(r)
    ensures multiset(r) == multiset(keys)
    ensures Distinct(keys) ==> StrictlyDescending(r)
  {
    if keys == [] then []
    else
      assert keys == [keys[0]] + keys[1..];
      var rest := SortDates(keys[1..]);
      assert Distinct(keys) ==> Distinct(keys[1..]) && keys[0] !in multiset(rest) by {
        if Distinct(keys) {
          forall j | 0 <= j < |keys[1..]| ensures keys[1..][j] != keys[0] {
            assert keys[1..][j] == keys[j + 1];
          }
        }
      }
      InsertDescending(keys[0], rest)
  }

  /** Two descending arrangements of the same keys are equal, so every correct
      sort with the descending comparator yields the SortDates order. */
  lemma {:induction false} DescendingPermutationUnique(a: seq<int>, b: seq<int>)
    requires Descending(a) && Descending(b)
    requires multiset(a) == multiset(b)
    ensures a == b
  {
    if a != [] {
      assert |b| == |multiset(b)| == |a|;
      assert a[0] in multiset(b) && b[0] in multiset(a);
      DescendingHeadIsMax(a, b[0]);
      DescendingHeadIsMax(b, a[0]);
      assert a == [a[0]] + a[1..] && b == [b[0]] + b[1..];
      assert multiset(a) == multiset{a[0]} + multiset(a[1..]);
      assert multiset(b) == multiset{b[0]} + multiset(b[1..]);
      assert a[0] == b[0];
      assert multiset(a[1..]) == multiset(a) - multiset{a[0]};
      assert multiset(b[1..]) == multiset(b) - multiset{b[0]};
      DescendingPermutationUnique(a[1..], b[1..]);
    }
  }

  /** The matches in the order the view lists them: day by day along keys. */
  function Flatten(keys: seq<DayKey>, groups: map<DayKey, seq<MatchResult>>): seq<MatchResult>
    requires forall i :: 0 <= i < |keys| ==> keys[i] in groups
  {
    if keys == [] then [] else groups[keys[0]] + Flatten(keys[1..], groups)
  }

  /** Along keys, groups holds each key's matches of s. */
  predicate GroupedAlong(s: seq<MatchResult>, keys: seq<DayKey>, groups: map<DayKey, seq<MatchResult>>)
  {
    forall i :: 0 <= i < |keys| ==> keys[i] in groups && groups[keys[i]] == OnDay(s, keys[i])
  }

  /** The sorted day keys of a grouping. */
  function SortedDates(g: Grouped): seq<DayKey>
  {
    SortDates(g.order)
  }

  /** The matches in display order: the groups in `sortedDates` order. */
  function DisplayOrder(g: Grouped): seq<MatchResult>
    requires forall k :: k in g.order ==> k in g.groups
  {
    var keys := SortedDates(g);
    assert forall i :: 0 <= i < |keys| ==> keys[i] in g.groups by {
      forall i | 0 <= i < |keys| ensures keys[i] in g.groups {
        assert keys[i] in keys;
        assert keys[i] in multiset(g.order);
      }
    }
    Flatten(keys, g.groups)
  }

  /** sortedDates holds each group key exactly once, by strictly descending date. */
  lemma SortedDatesOfGrouping(matches: seq<MatchResult>, g: Grouped)
    requires IsGroupingOf(matches, g)
    ensures StrictlyDescending(SortedDates(g))
    ensures Distinct(SortedDates(g))
    ensures forall k :: k in SortedDates(g) <==> k in g.groups
  {
    var r := SortedDates(g);
    assert forall k :: k in r <==> k in multiset(g.order);
  }

  /** Matches selected by a set of day keys, in input order. */
  function OnDays(s: seq<MatchResult>, days: set<DayKey>): seq<MatchResult>
  {
    if s == [] then []
    else OnDays(s[..|s| - 1], days) + (if s[|s| - 1].day in days then [s[|s| - 1]] else [])
  }

  lemma {:induction false} OnDaysNone(s: seq<MatchResult>)
    ensures OnDays(s, {}) == []
  {
    if s != [] {
      OnDaysNone(s[..|s| - 1]);
    }
  }

  lemma {:induction false} OnDaysSplit(s: seq<MatchResult>, days: set<DayKey>, k: DayKey)
    requires k !in days
    ensures multiset(OnDays(s, days + {k})) == multiset(OnDay(s, k)) + multiset(OnDays(s, days))
  {
    if s != [] {
      OnDaysSplit(s[..|s| - 1], days, k);
    }
  }

  lemma {:induction false} OnDaysAll(s: seq<MatchResult>, days: set<DayKey>)
    requires DaysOf(s) <= days
    ensures OnDays(s, days) == s
  {
    if s != [] {
      var init := s[..|s| - 1];
      assert s == init + [s[|s| - 1]];
      assert DaysOf(init) <= DaysOf(s);
      OnDaysAll(init, days);
    }
  }

  lemma {:induction false} FlattenMultiset(s: seq<MatchResult>, keys: seq<DayKey>, groups: map<DayKey, seq<MatchResult>>)
    requires Distinct(keys)
    requires GroupedAlong(s, keys, groups)
    ensures multiset(Flatten(keys, groups)) == multiset(OnDays(s, (set k | k in keys)))
  {
    if keys != [] {
      var rest := keys[1..];
      assert keys == [keys[0]] + rest;
      assert keys[0] in keys;
      assert Distinct(rest) && keys[0] !in rest by {
        forall j | 0 <= j < |rest| ensures rest[j] != keys[0] {
          assert rest[j] == keys[j + 1];
        }
      }
      var later := set k | k in rest;
      assert (set k | k in keys) == later + {keys[0]};
      FlattenMultiset(s, rest, groups);
      OnDaysSplit(s, later, keys[0]);
      calc {
        multiset(Flatten(keys, groups));
        multiset(groups[keys[0]] + Flatten(rest, groups));
        multiset(OnDay(s, keys[0])) + multiset(OnDays(s, later));
        multiset(OnDays(s, later + {keys[0]}));
      }
    } else {
      assert (set k | k in keys) == {};
      OnDaysNone(s);
    }
  }

  predicate DayDescending(s: seq<MatchResult>)
  {
    forall i, j :: 0 <= i < j < |s| ==> s[i].day >= s[j].day
  }

  lemma ConcatDayDescending(a: seq<MatchResult>, b: seq<MatchResult>, k: DayKey)
    requires forall m :: m in a ==> m.day == k
    requires forall m :: m in b ==> m.day <= k
    requires DayDescending(b)
    ensures DayDescending(a + b)
  {
    forall i, j | 0 <= i < j < |a + b| ensures (a + b)[i].day >= (a + b)[j].day {
      if j < |a| {
        assert a[i] in a && a[j] in a;
      } else if i < |a| {
        assert a[i] in a && b[j - |a|] in b;
      }
    }
  }

  lemma {:induction false} FlattenDayDescending(s: seq<MatchResult>, keys: seq<DayKey>, groups: map<DayKey, seq<MatchResult>>)
    requires Descending(keys)
    requires GroupedAlong(s, keys, groups)
    ensures DayDescending(Flatten(keys, groups))
    ensures forall m :: m in Flatten(keys, groups) ==> m.day in keys
  {
    if keys != [] {
      var rest := keys[1..];
      assert Descending(rest);
      FlattenDayDescending(s, rest, groups);
      var tail := Flatten(rest, groups);
      assert forall m :: m in tail ==> m.day <= keys[0] by {
        forall m | m in tail ensures m.day <= keys[0] {
          var j :| 0 <= j < |rest| && rest[j] == m.day;
          assert keys[j + 1] == m.day;
        }
      }
      ConcatDayDescending(groups[keys[0]], tail, keys[0]);
    }
  }

  lemma {:induction false} OnDayAppend(a: seq<MatchResult>, b: seq<MatchResult>, k: DayKey)
    ensures OnDay(a + b, k) == OnDay(a, k) + OnDay(b, k)
  {
    if b == [] {
      assert a + b == a;
    } else {
      var init := b[..|b| - 1];
      assert (a + b)[..|a + b| - 1] == a + init;
      OnDayAppend(a, init, k);
    }
  }

  lemma {:induction false} OnDayOfOnDay(s: seq<MatchResult>, k0: DayKey, k: DayKey)
    ensures OnDay(OnDay(s, k0), k) == if k == k0 then OnDay(s, k0) else []
  {
    if s != [] {
      var init := s[..|s| - 1];
      var last := s[|s| - 1];
      OnDayOfOnDay(init, k0, k);
      OnDayAppend(OnDay(init, k0), if last.day == k0 then [last] else [], k);
      if last.day == k0 {
        assert [last][..0] == [];
      }
    }
  }

  lemma {:induction false} FlattenOnDay(s: seq<MatchResult>, keys: seq<DayKey>, groups: map<DayKey, seq<MatchResult>>, k: DayKey)
    requires Distinct(keys)
    requires GroupedAlong(s, keys, groups)
    ensures OnDay(Flatten(keys, groups), k) == if k in keys then OnDay(s, k) else []
  {
    if keys != [] {
      var rest := keys[1..];
      assert Distinct(rest);
      assert keys[0] !in rest by {
        forall j | 0 <= j < |rest| ensures rest[j] != keys[0] {
          assert rest[j] == keys[j + 1];
        }
      }
      assert keys == [keys[0]] + rest;
      FlattenOnDay(s, rest, groups, k);
      assert keys[0] in keys;
      OnDayAppend(groups[keys[0]], Flatten(rest, groups), k);
      OnDayOfOnDay(s, keys[0], k);
    }
  }

  /** The sorted keys of a grouping run along its groups. */
  lemma SortedDatesAlongGroups(matches: seq<MatchResult>, g: Grouped)
    requires IsGroupingOf(matches, g)
    ensures GroupedAlong(matches, SortedDates(g), g.groups)
  {
    var keys := SortedDates(g);
    SortedDatesOfGrouping(matches, g);
    forall i | 0 <= i < |keys| ensures keys[i] in g.groups && g.groups[keys[i]] == OnDay(matches, keys[i]) {
      assert keys[i] in keys;
    }
  }

  /** The view lists every input match exactly as often as the input holds it. */
  lemma DisplayOrderIsPermutation(matches: seq<MatchResult>, g: Grouped)
    requires IsGroupingOf(matches, g)
    ensures multiset(DisplayOrder(g)) == multiset(matches)
    ensures |DisplayOrder(g)| == |matches|
  {
    var keys := SortedDates(g);
    SortedDatesOfGrouping(matches, g);
    SortedDatesAlongGroups(matches, g);
    FlattenMultiset(matches, keys, g.groups);
    assert (set k | k in keys) == DaysOf(matches);
    OnDaysAll(matches, DaysOf(matches));
    assert |multiset(DisplayOrder(g))| == |multiset(matches)|;
  }

  /** The view lists the matches newest day first. */
  lemma DisplayOrderIsNewestFirst(matches: seq<MatchResult>, g: Grouped)
    requires IsGroupingOf(matches, g)
    ensures DayDescending(DisplayOrder(g))
  {
    SortedDatesOfGrouping(matches, g);
    SortedDatesAlongGroups(matches, g);
    FlattenDayDescending(matches, SortedDates(g), g.groups);
  }

  /** Within each day the view keeps the input order, so together with the two
      lemmas above the view is the stable sort of the input by day, newest first. */
  lemma DisplayOrderKeepsDayOrder(matches: seq<MatchResult>, g: Grouped, k: DayKey)
    requires IsGroupingOf(matches, g)
    ensures OnDay(DisplayOrder(g), k) == OnDay(matches, k)
  {
    var keys := SortedDates(g);
    SortedDatesOfGrouping(matches, g);
    SortedDatesAlongGroups(matches, g);
    FlattenOnDay(matches, keys, g.groups, k);
    if k !in keys {
      OnDayEmptyIff(matches, k);
    }
  }

  // ---------------------------------------------------------------------------
  // Toasts
  // ---------------------------------------------------------------------------

  datatype ToastKind = Success | Error

  datatype Toast = Toast(id: string, message: string, kind: ToastKind)

  const UpdatedMessage := "Match updated successfully!"
  const UpdateFailedMessage := "Failed to update match. Please try again."
  const DeletedMessage := "Match deleted successfully!"
  const DeleteFailedMessage := "Failed to delete match. Please try again."

  /** The filter of removeToast and of the expiry callback: drop the toasts with this id. */
  function WithoutId(ts: seq<Toast>, id: string): (r: seq<Toast>)
    ensures forall t :: t in r <==> t in ts && t.id != id
    ensures |r| <= |ts|
  {
    if ts == [] then []
    else (if ts[0].id == id then [] else [ts[0]]) + WithoutId(ts[1..], id)
  }

  /** Removal works toast by toast, so the toasts it keeps stay in their order. */
  lemma {:induction false} WithoutIdAppend(a: seq<Toast>, b: seq<Toast>, id: string)
    ensures WithoutId(a + b, id) == WithoutId(a, id) + WithoutId(b, id)
  {
    if a != [] {
      assert (a + b)[1..] == a[1..] + b;
      WithoutIdAppend(a[1..], b, id);
    } else {
      assert a + b == b;
    }
  }

  /** Removing an id no toast carries changes nothing. */
  lemma {:induction false} WithoutAbsentId(ts: seq<Toast>, id: string)
    requires forall t :: t in ts ==> t.id != id
    ensures WithoutId(ts, id) == ts
  {
    if ts != [] {
      assert ts == [ts[0]] + ts[1..];
      WithoutAbsentId(ts[1..], id);
    }
  }

  /** Removal is idempotent: dismissing a toast that has expired already changes nothing. */
  lemma RemovalIdempotent(ts: seq<Toast>, id: string)
    ensures WithoutId(WithoutId(ts, id), id) == WithoutId(ts, id)
  {
    WithoutAbsentId(WithoutId(ts, id), id);
  }

  /** A toast whose id no other toast carries leaves on expiry exactly the list it joined. */
  lemma ShowThenExpire(ts: seq<Toast>, t: Toast)
    requires forall u :: u in ts ==> u.id != t.id
    ensures WithoutId(ts + [t], t.id) == ts
  {
    WithoutIdAppend(ts, [t], t.id);
    WithoutAbsentId(ts, t.id);
    assert [t][1..] == [];
  }

  /** Ids are not unique (two toasts in the same millisecond share one): the expiry
      of the later toast then also removes the earlier toast. */
  lemma SharedIdExpiryRemovesBoth(id: string)
    ensures WithoutId([Toast(id, UpdatedMessage, Success), Toast(id, DeletedMessage, Success)], id) == []
  {
  }

  // ---------------------------------------------------------------------------
  // The edit form
  // ---------------------------------------------------------------------------

  datatype EditForm = EditForm(player1_goals: int, player2_goals: int, half_length: int)

  const InitialForm := EditForm(0, 0, 4)

  /** Math.max(0, g - 1): the goal stepper's "-". */
  function StepDown(g: int): (r: int)
    ensures r >= 0 && r >= g - 1
    ensures r == 0 || r == g - 1
  {
    if 0 >= g - 1 then 0 else g - 1
  }

  /** `parseInt(value) || 4`: None stands for a value parseInt reads as NaN. */
  function HalfLengthFromInput(parsed: Option<int>): (h: int)
    ensures h != 0
    ensures parsed.Some? && parsed.value != 0 ==> h == parsed.value
    ensures parsed.None? || parsed.value == 0 ==> h == 4
  {
    match parsed
    case Some(v) => if v != 0 then v else 4
    case None => 4
  }

  /** The controls of the edit form. */
  datatype FormStep =
    | Player1Down
    | Player1Up
    | Player2Down
    | Player2Up
    | HalfLengthInput(parsed: Option<int>)

  /** The `setEditForm(prev => ...)` updater of each control. */
  function ApplyStep(f: EditForm, step: FormStep): (r: EditForm)
    ensures step.Player1Down? ==> r.player1_goals == StepDown(f.player1_goals)
    ensures step.Player1Up? ==> r.player1_goals == f.player1_goals + 1
    ensures step.Player2Down? ==> r.player2_goals == StepDown(f.player2_goals)
    ensures step.Player2Up? ==> r.player2_goals == f.player2_goals + 1
    ensures step.HalfLengthInput? ==> r.half_length == HalfLengthFromInput(step.parsed)
    ensures !(step.Player1Down? || step.Player1Up?) ==> r.player1_goals == f.player1_goals
    ensures !(step.Player2Down? || step.Player2Up?) ==> r.player2_goals == f.player2_goals
    ensures !step.HalfLengthInput? ==> r.half_length == f.half_length
  {
    match step
    case Player1Down => f.(player1_goals := StepDown(f.player1_goals))
    case Player1Up => f.(player1_goals := f.player1_goals + 1)
    case Player2Down => f.(player2_goals := StepDown(f.player2_goals))
    case Player2Up => f.(player2_goals := f.player2_goals + 1)
    case HalfLengthInput(parsed) => f.(half_length := HalfLengthFromInput(parsed))
  }

  function ApplySteps(f: EditForm, steps: seq<FormStep>): EditForm
    decreases steps
  {
    if steps == [] then f else ApplySteps(ApplyStep(f, steps[0]), steps[1..])
  }

  predicate GoalsNonNegative(f: EditForm)
  {
    f.player1_goals >= 0 && f.player2_goals >= 0
  }

  /** No sequence of control uses takes a goal count below zero from a non-negative start. */
  lemma {:induction false} StepsKeepGoalsNonNegative(f: EditForm, steps: seq<FormStep>)
    requires GoalsNonNegative(f)
    ensures GoalsNonNegative(ApplySteps(f, steps))
    decreases steps
  {
    if steps != [] {
      StepsKeepGoalsNonNegative(ApplyStep(f, steps[0]), steps[1..]);
    }
  }

  /** "-" undoes "+" on a non-negative count; on 0, "-" stays at 0 and "+" then gives 1. */
  lemma StepDownUndoesStepUp(f: EditForm)
    requires GoalsNonNegative(f)
    ensures ApplyStep(ApplyStep(f, Player1Up), Player1Down) == f
    ensures ApplyStep(ApplyStep(f, Player2Up), Player2Down) == f
    ensures f.player1_goals == 0 ==> ApplyStep(ApplyStep(f, Player1Down), Player1Up) == f.(player1_goals := 1)
  {
  }

  // ---------------------------------------------------------------------------
  // The edit and delete session
  // ---------------------------------------------------------------------------

  /** The call handleSaveEdit makes to updateMatch. */
  datatype UpdateRequest = UpdateRequest(matchId: string, player1_goals: int, player2_goals: int, half_length: int)

  /** `if (!editingMatch) return;`: null and the empty id are both falsy. */
  predicate Truthy(editing: Option<string>)
  {
    editing.Some? && editing.value != ""
  }

  /** The state of one MatchHistory component. The onMatchUpdated callback is
      optional; whether the parent passed one is fixed for the component. */
  class MatchHistoryView {
    const hasOnMatchUpdated: bool
    var editingMatch: Option<string>
    var editForm: EditForm
    var toasts: seq<Toast>

    constructor (hasOnMatchUpdated: bool)
      ensures this.hasOnMatchUpdated == hasOnMatchUpdated
      ensures editingMatch == None && editForm == InitialForm && toasts == []
    {
      this.hasOnMatchUpdated := hasOnMatchUpdated;
      editingMatch := None;
      editForm := InitialForm;
      toasts := [];
    }

    /** The row of m shows the edit form. */
    predicate IsEditing(m: MatchResult)
      reads this
    {
      editingMatch == Some(m.id)
    }

    /** showToast, with the id that Date.now() would give passed in. */
    method ShowToast(id: string, message: string, kind: ToastKind)
      modifies this
      ensures toasts == old(toasts) + [Toast(id, message, kind)]
      ensures editingMatch == old(editingMatch) && editForm == old(editForm)
    {
      toasts := toasts + [Toast(id, message, kind)];
    }

    /** removeToast: the user dismisses every toast with this id. */
    method RemoveToast(id: string)
      modifies this
      ensures toasts == WithoutId(old(toasts), id)
      ensures editingMatch == old(editingMatch) && editForm == old(editForm)
    {
      toasts := WithoutId(toasts, id);
    }

    /** The timer callback of showToast, three seconds later: the same filter as removeToast. */
    method ExpireToast(id: string)
      modifies this
      ensures toasts == WithoutId(old(toasts), id)
      ensures editingMatch == old(editingMatch) && editForm == old(editForm)
    {
      toasts := WithoutId(toasts, id);
    }

    /** handleEditClick: m becomes the one match edited, replacing any other, and
        the form takes m's goals and half length. */
    method EditClick(m: MatchResult)
      modifies this
      ensures editingMatch == Some(m.id)
      ensures editForm == EditForm(m.player1_goals, m.player2_goals, m.half_length)
      ensures toasts == old(toasts)
      ensures forall other: MatchResult :: IsEditing(other) <==> other.id == m.id
    {
      editingMatch := Some(m.id);
      editForm := EditForm(m.player1_goals, m.player2_goals, m.half_length);
    }

    /** One use of a form control; only the form changes. */
    method AdjustForm(step: FormStep)
      modifies this
      ensures editForm == ApplyStep(old(editForm), step)
      ensures editingMatch == old(editingMatch) && toasts == old(toasts)
      ensures old(GoalsNonNegative(editForm)) ==> GoalsNonNegative(editForm)
    {
      editForm := ApplyStep(editForm, step);
    }

    /** handleSaveEdit, with updateMatch's outcome and the toast id passed in. It
        returns the request sent to updateMatch, and whether onMatchUpdated was called. */
    method SaveEdit(outcome: Outcome, toastId: string) returns (request: Option<UpdateRequest>, notified: bool)
      modifies this
      ensures editForm == old(editForm)
      ensures !Truthy(old(editingMatch)) ==>
        request == None && !notified && editingMatch == old(editingMatch) && toasts == old(toasts)
      ensures Truthy(old(editingMatch)) ==>
        request == Some(UpdateRequest(old(editingMatch).value, old(editForm).player1_goals,
                                      old(editForm).player2_goals, old(editForm).half_length))
      ensures Truthy(old(editingMatch)) && outcome == Succeeded ==>
        && editingMatch == None
        && toasts == old(toasts) + [Toast(toastId, UpdatedMessage, Success)]
        && notified == hasOnMatchUpdated
      ensures Truthy(old(editingMatch)) && outcome == Failed ==>
        && editingMatch == old(editingMatch)
        && toasts == old(toasts) + [Toast(toastId, UpdateFailedMessage, Error)]
        && !notified
    {
      if !Truthy(editingMatch) {
        return None, false;
      }
      request := Some(UpdateRequest(editingMatch.value, editForm.player1_goals,
                                    editForm.player2_goals, editForm.half_length));
      notified := false;
      match outcome
      case Succeeded =>
        editingMatch := None;
        ShowToast(toastId, UpdatedMessage, Success);
        notified := hasOnMatchUpdated;
      case Failed =>
        ShowToast(toastId, UpdateFailedMessage, Error);
    }

    /** handleCancelEdit: the edit session ends; the form keeps its values. */
    method CancelEdit()
      modifies this
      ensures editingMatch == None
      ensures editForm == old(editForm) && toasts == old(toasts)
    {
      editingMatch := None;
    }

    /** handleDeleteMatch, with the answer to the confirmation dialog, deleteMatch's
        outcome and the toast id passed in. It returns the id sent to deleteMatch,
        and whether onMatchUpdated was called. */
    method DeleteMatch(matchId: string, confirmed: bool, outcome: Outcome, toastId: string)
      returns (request: Option<string>, notified: bool)
      modifies this
      ensures editingMatch == old(editingMatch) && editForm == old(editForm)
      ensures !confirmed ==> request == None && !notified && toasts == old(toasts)
      ensures confirmed ==> request == Some(matchId)
      ensures confirmed && outcome == Succeeded ==>
        toasts == old(toasts) + [Toast(toastId, DeletedMessage, Success)] && notified == hasOnMatchUpdated
      ensures confirmed && outcome == Failed ==>
        toasts == old(toasts) + [Toast(toastId, DeleteFailedMessage, Error)] && !notified
    {
      if !confirmed {
        return None, false;
      }
      request := Some(matchId);
      notified := false;
      match outcome
      case Succeeded =>
        ShowToast(toastId, DeletedMessage, Success);
        notified := hasOnMatchUpdated;
      case Failed =>
        ShowToast(toastId, DeleteFailedMessage, Error);
    }
  }
}
