/** The a2 questions: the tables merged on their ids, the rows grouped and
    counted, the groups ranked and cut to the top N, and the CSV that
    `process_data` writes for them. The tables are sequences of records and
    the pandas operations are spec functions over them. */
module RouteQueries {
  import opened Text
  import opened DataFrames
  import opened RouteDedup

  datatype Airline = Airline(id: string, name: string, icao: string, country: string)
  datatype Airport = Airport(id: string, name: string, city: string, country: string, icao: string, altitude: int)
  datatype Route = Route(airlineId: string, fromId: string, toId: string)

  // ---------------------------------------------------------------- merges

  /** The rows of `ys` whose key equals the key of `x`, each paired with `x`. */
  function Pairs<A, B>(x: A, ys: seq<B>, kx: A -> string, ky: B -> string): seq<(A, B)>
    decreases |ys|
  {
    if ys == [] then []
    else Pairs(x, ys[..|ys| - 1], kx, ky) + (if ky(ys[|ys| - 1]) == kx(x) then [(x, ys[|ys| - 1])] else [])
  }

  /** `merge(how='inner')`: every pair of rows with equal keys. */
  function Merge<A, B>(xs: seq<A>, ys: seq<B>, kx: A -> string, ky: B -> string): seq<(A, B)>
    decreases |xs|
  {
    if xs == [] then [] else Merge(xs[..|xs| - 1], ys, kx, ky) + Pairs(xs[|xs| - 1], ys, kx, ky)
  }

  /** `merge(how='left')` for one left row: its matches, or the row alone with the right side missing. */
  function LeftPairs<A, B>(x: A, ys: seq<B>, kx: A -> string, ky: B -> string): seq<(A, Option<B>)> {
    var ps := Pairs(x, ys, kx, ky);
    if ps == [] then [(x, None)] else seq(|ps|, i requires 0 <= i < |ps| => (x, Some(ps[i].1)))
  }

  /** `merge(how='left')`: every left row with each of its matches, or alone when it has none. */
  function LeftMerge<A, B>(xs: seq<A>, ys: seq<B>, kx: A -> string, ky: B -> string): seq<(A, Option<B>)>
    decreases |xs|
  {
    if xs == [] then [] else LeftMerge(xs[..|xs| - 1], ys, kx, ky) + LeftPairs(xs[|xs| - 1], ys, kx, ky)
  }

  lemma {:induction false} PairsMembers<A, B>(x: A, ys: seq<B>, kx: A -> string, ky: B -> string)
    ensures forall p :: p in Pairs(x, ys, kx, ky) <==> p.0 == x && p.1 in ys && ky(p.1) == kx(x)
    decreases |ys|
  {
    if ys != [] {
      var init := ys[..|ys| - 1];
      PairsMembers(x, init, kx, ky);
      assert ys == init + [ys[|ys| - 1]];
    }
  }

  /** An inner merge holds exactly the pairs of rows, one from each side, whose keys agree. */
  lemma {:induction false} MergeMembers<A, B>(xs: seq<A>, ys: seq<B>, kx: A -> string, ky: B -> string)
    ensures forall p :: p in Merge(xs, ys, kx, ky) <==> p.0 in xs && p.1 in ys && kx(p.0) == ky(p.1)
    decreases |xs|
  {
    if xs != [] {
      var init, x := xs[..|xs| - 1], xs[|xs| - 1];
      MergeMembers(init, ys, kx, ky);
      PairsMembers(x, ys, kx, ky);
      assert xs == init + [x];
    }
  }

  /** The airports `airport_country == 'Canada'` keeps; the test is on the unstripped text. */
  function Canadian(aps: seq<Airport>): seq<Airport>
    decreases |aps|
  {
    if aps == [] then []
    else Canadian(aps[..|aps| - 1]) + (if aps[|aps| - 1].country == "Canada" then [aps[|aps| - 1]] else [])
  }

  // ------------------------------------------------------ the group columns

  /** The group columns, after `df_lstrip`, of the rows `question1` merges:
      routes with their airline and a Canadian destination airport. */
  function Q1Keys(als: seq<Airline>, aps: seq<Airport>, rs: seq<Route>): seq<seq<string>> {
    var ra := Merge(rs, als, (r: Route) => r.airlineId, (a: Airline) => a.id);
    var m := Merge(ra, Canadian(aps), (x: (Route, Airline)) => x.0.toId, (p: Airport) => p.id);
    seq(|m|, i requires 0 <= i < |m| => [LStrip(m[i].0.1.name), LStrip(m[i].0.1.icao)])
  }

  /** `question2`: routes with their destination airport, grouped by its country. */
  function Q2Keys(aps: seq<Airport>, rs: seq<Route>): seq<seq<string>> {
    var m := Merge(rs, aps, (r: Route) => r.toId, (p: Airport) => p.id);
    seq(|m|, i requires 0 <= i < |m| => [LStrip(m[i].1.country)])
  }

  /** The rows of a left merge whose destination airport was found; the
      others have missing group columns, which `groupby` drops. */
  function Found(m: seq<((Route, Option<Airline>), Option<Airport>)>): seq<seq<string>>
    decreases |m|
  {
    if m == [] then []
    else
      var p := m[|m| - 1].1;
      Found(m[..|m| - 1]) +
      (if p.Some? then [[LStrip(p.value.name), LStrip(p.value.icao), LStrip(p.value.city), LStrip(p.value.country)]] else [])
  }

  /** `question3`: routes left-merged with airlines, then with their destination airport. */
  function Q3Keys(als: seq<Airline>, aps: seq<Airport>, rs: seq<Route>): seq<seq<string>> {
    var ra := LeftMerge(rs, als, (r: Route) => r.airlineId, (a: Airline) => a.id);
    Found(LeftMerge(ra, aps, (x: (Route, Option<Airline>)) => x.0.toId, (p: Airport) => p.id))
  }

  /** `question4`: routes with their destination airport, grouped by city and country. */
  function Q4Keys(aps: seq<Airport>, rs: seq<Route>): seq<seq<string>> {
    var m := Merge(rs, aps, (r: Route) => r.toId, (p: Airport) => p.id);
    seq(|m|, i requires 0 <= i < |m| => [LStrip(m[i].1.city), LStrip(m[i].1.country)])
  }

  /** `question5`: routes between two Canadian airports, as (from code, to code, altitude difference). */
  function Q5Trips(aps: seq<Airport>, rs: seq<Route>): seq<Trip> {
    var ca := Canadian(aps);
    var rt := Merge(rs, ca, (r: Route) => r.toId, (p: Airport) => p.id);
    var m := Merge(rt, ca, (x: (Route, Airport)) => x.0.fromId, (p: Airport) => p.id);
    seq(|m|, i requires 0 <= i < |m| =>
      Trip(LStrip(m[i].1.icao), LStrip(m[i].0.1.icao), Abs(m[i].0.1.altitude - m[i].1.altitude)))
  }

  // ------------------------------------------------------- groupby().size()

  /** A group of `groupby(...).size()`: its key columns and its row count. */
  datatype Group = Group(key: seq<string>, size: nat)

  /** One more row with key `k`: its group grows, or a new group of one is added. */
  function Bump(gs: seq<Group>, k: seq<string>): seq<Group>
    decreases |gs|
  {
    if gs == [] then [Group(k, 1)]
    else if gs[0].key == k then [Group(k, gs[0].size + 1)] + gs[1..]
    else [gs[0]] + Bump(gs[1..], k)
  }

  /** The groups of the rows' keys. */
  function Tally(keys: seq<seq<string>>): seq<Group>
    decreases |keys|
  {
    if keys == [] then [] else Bump(Tally(keys[..|keys| - 1]), keys[|keys| - 1])
  }

  predicate DistinctKeys(gs: seq<Group>) {
    forall i, j :: 0 <= i < j < |gs| ==> gs[i].key != gs[j].key
  }

  predicate HasKey(gs: seq<Group>, k: seq<string>) {
    exists i :: 0 <= i < |gs| && gs[i].key == k
  }

  /** Each group is one distinct key with the number of rows that carry it, and every key has a group. */
  predicate Counts(gs: seq<Group>, keys: seq<seq<string>>) {
    && DistinctKeys(gs)
    && (forall i :: 0 <= i < |gs| ==> gs[i].size == multiset(keys)[gs[i].key] && gs[i].size > 0)
    && (forall k :: k in keys ==> HasKey(gs, k))
  }

  /** The place of the group with key `k`, or `|gs|` when there is none. */
  function KeyIndex(gs: seq<Group>, k: seq<string>): (i: nat)
    ensures i <= |gs| && (i < |gs| ==> gs[i].key == k)
    ensures forall j :: 0 <= j < i ==> gs[j].key != k
    decreases |gs|
  {
    if gs == [] then 0 else if gs[0].key == k then 0 else 1 + KeyIndex(gs[1..], k)
  }

  /** `Bump` grows the group of `k` in place, or appends a group of one. */
  lemma {:induction false} BumpSpec(gs: seq<Group>, k: seq<string>)
    ensures var i := KeyIndex(gs, k);
      Bump(gs, k) == if i < |gs| then gs[i := Group(k, gs[i].size + 1)] else gs + [Group(k, 1)]
    decreases |gs|
  {
    if gs != [] && gs[0].key != k {
      var rest := gs[1..];
      BumpSpec(rest, k);
      var i := KeyIndex(rest, k);
      assert KeyIndex(gs, k) == i + 1;
      if i < |rest| {
        assert [gs[0]] + rest[i := Group(k, rest[i].size + 1)] == gs[i + 1 := Group(k, gs[i + 1].size + 1)];
      } else {
        assert [gs[0]] + (rest + [Group(k, 1)]) == gs + [Group(k, 1)];
      }
    }
  }

  lemma BumpCounts(gs: seq<Group>, keys: seq<seq<string>>, k: seq<string>)
    requires Counts(gs, keys)
    ensures Counts(Bump(gs, k), keys + [k])
  {
    var ks := keys + [k];
    assert multiset(ks) == multiset(keys) + multiset{k};
    var i := KeyIndex(gs, k);
    BumpSpec(gs, k);
    var r := Bump(gs, k);
    if i < |gs| {
      assert r == gs[i := Group(k, gs[i].size + 1)];
      forall kk | kk in ks
        ensures HasKey(r, kk)
      {
        if kk != k {
          assert kk in keys && HasKey(gs, kk);
          var j :| 0 <= j < |gs| && gs[j].key == kk;
          assert r[j].key == kk;
        } else {
          assert r[i].key == k;
        }
      }
    } else {
      assert r == gs + [Group(k, 1)];
      assert !HasKey(gs, k);
      assert k !in keys;
      forall kk | kk in ks
        ensures HasKey(r, kk)
      {
        if kk != k {
          assert kk in keys && HasKey(gs, kk);
          var j :| 0 <= j < |gs| && gs[j].key == kk;
          assert r[j].key == kk;
        } else {
          assert r[|gs|].key == k;
        }
      }
    }
  }

  /** `groupby(...).size()` has one group per distinct key, sized by its number of rows. */
  lemma {:induction false} TallyCounts(keys: seq<seq<string>>)
    ensures Counts(Tally(keys), keys)
    decreases |keys|
  {
    if keys != [] {
      var init := keys[..|keys| - 1];
      TallyCounts(init);
      BumpCounts(Tally(init), init, keys[|keys| - 1]);
      assert init + [keys[|keys| - 1]] == keys;
    }
  }

  // --------------------------------------------------------------- ranking

  /** Python's ordering of equal-length tuples of strings, used by `groupby` for its keys. */
  predicate KeyLess(a: seq<string>, b: seq<string>)
    decreases |a|
  {
    if a == [] then b != []
    else if b == [] then false
    else if a[0] != b[0] then StrLess(a[0], b[0])
    else KeyLess(a[1..], b[1..])
  }

  lemma {:induction false} KeyLessOrder(a: seq<string>, b: seq<string>, c: seq<string>)
    ensures !KeyLess(a, a)
    ensures KeyLess(a, b) ==> !KeyLess(b, a)
    ensures a != b ==> KeyLess(a, b) || KeyLess(b, a)
    ensures KeyLess(a, b) && KeyLess(b, c) ==> KeyLess(a, c)
    decreases |a|
  {
    if a != [] {
      StrLessTotal(a[0], a[0]);
      if b != [] {
        StrLessTotal(a[0], b[0]);
        if c != [] {
          if StrLess(a[0], b[0]) && StrLess(b[0], c[0]) {
            StrLessTrans(a[0], b[0], c[0]);
          }
          KeyLessOrder(a[1..], b[1..], c[1..]);
        } else {
          KeyLessOrder(a[1..], b[1..], a[1..]);
        }
        if a[0] == b[0] && a != b {
          assert a == [a[0]] + a[1..] && b == [b[0]] + b[1..];
        }
      } else {
        KeyLessOrder(a[1..], a[1..], a[1..]);
      }
    }
  }

  /** `sort_values(by=['size', <first key column>])` after `groupby`: by size
      (descending or ascending), then by key, since the stable sort keeps
      `groupby`'s key order among equal sizes and first columns. */
  predicate Ranked(desc: bool, g: Group, h: Group) {
    if g.size != h.size then (if desc then g.size > h.size else g.size < h.size) else KeyLess(g.key, h.key)
  }

  /** A strict order that ranks any two different values one way or the other. */
  ghost predicate StrictTotal<T(!new)>(less: (T, T) -> bool) {
    && (forall a :: !less(a, a))
    && (forall a, b, c :: less(a, b) && less(b, c) ==> less(a, c))
    && (forall a, b :: a != b ==> less(a, b) || less(b, a))
  }

  lemma RankedOrder(desc: bool)
    ensures StrictTotal((g, h) => Ranked(desc, g, h))
  {
    forall g: Group, h: Group, k: Group
      ensures !Ranked(desc, g, g)
      ensures Ranked(desc, g, h) && Ranked(desc, h, k) ==> Ranked(desc, g, k)
      ensures g != h ==> Ranked(desc, g, h) || Ranked(desc, h, g)
    {
      KeyLessOrder(g.key, h.key, k.key);
      KeyLessOrder(g.key, g.key, g.key);
    }
  }

  /** `sort_values(by=['diff', 'to_airport_icao_unique_code', 'from_airport_icao_unique_code'],
      ascending=[False, True, True])` on the routes of question 5. */
  predicate TripRanked(a: Trip, b: Trip) {
    a.diff > b.diff ||
    (a.diff == b.diff && (StrLess(a.to, b.to) || (a.to == b.to && StrLess(a.from, b.from))))
  }

  lemma TripOrder()
    ensures StrictTotal(TripRanked)
  {
    forall a: Trip, b: Trip, c: Trip
      ensures !TripRanked(a, a)
      ensures TripRanked(a, b) && TripRanked(b, c) ==> TripRanked(a, c)
      ensures a != b ==> TripRanked(a, b) || TripRanked(b, a)
    {
      StrLessTotal(a.to, b.to);
      StrLessTotal(a.from, b.from);
      StrLessTotal(a.to, a.to);
      StrLessTotal(a.from, a.from);
      StrLessTotal(b.to, c.to);
      if StrLess(a.to, b.to) && StrLess(b.to, c.to) {
        StrLessTrans(a.to, b.to, c.to);
      }
      if StrLess(a.from, b.from) && StrLess(b.from, c.from) {
        StrLessTrans(a.from, b.from, c.from);
      }
    }
  }

  // --------------------------------------------------------------- sorting

  predicate Sorted<T>(less: (T, T) -> bool, s: seq<T>) {
    forall i, j :: 0 <= i < j < |s| ==> !less(s[j], s[i])
  }

  /** `x` placed after the elements ranked before it. */
  function Insert<T>(less: (T, T) -> bool, x: T, s: seq<T>): seq<T>
    decreases |s|
  {
    if s == [] then [x] else if less(s[0], x) then [s[0]] + Insert(less, x, s[1..]) else [x] + s
  }

  /** The rows in rank order. */
  function Sort<T>(less: (T, T) -> bool, s: seq<T>): seq<T>
    decreases |s|
  {
    if s == [] then [] else Insert(less, s[0], Sort(less, s[1..]))
  }

  lemma {:induction false} InsertSorted<T(!new)>(less: (T, T) -> bool, x: T, s: seq<T>)
    requires StrictTotal(less) && Sorted(less, s)
    ensures Sorted(less, Insert(less, x, s))
    ensures multiset(Insert(less, x, s)) == multiset(s) + multiset{x}
    decreases |s|
  {
    if s == [] {
    } else if less(s[0], x) {
      InsertSorted(less, x, s[1..]);
      InsertBehind(less, x, s);
    } else {
      InsertAhead(less, x, s);
    }
  }

  /** `x` goes after the first element, which ranks before it. */
  lemma InsertBehind<T(!new)>(less: (T, T) -> bool, x: T, s: seq<T>)
    requires StrictTotal(less) && Sorted(less, s) && s != [] && less(s[0], x)
    requires Sorted(less, Insert(less, x, s[1..]))
    requires multiset(Insert(less, x, s[1..])) == multiset(s[1..]) + multiset{x}
    ensures Sorted(less, Insert(less, x, s))
    ensures multiset(Insert(less, x, s)) == multiset(s) + multiset{x}
  {
    var t := Insert(less, x, s[1..]);
    var r := Insert(less, x, s);
    assert s == [s[0]] + s[1..];
    assert r == [s[0]] + t;
    forall j | 0 <= j < |t|
      ensures !less(t[j], s[0])
    {
      assert t[j] in multiset(t);
      if t[j] != x {
        assert t[j] in s[1..];
        var k :| 0 <= k < |s[1..]| && s[1..][k] == t[j];
        assert s[k + 1] == t[j];
      }
    }
    forall i, j | 0 <= i < j < |r|
      ensures !less(r[j], r[i])
    {
      if i > 0 {
        assert r[i] == t[i - 1] && r[j] == t[j - 1];
      } else {
        assert r[j] == t[j - 1];
      }
    }
  }

  /** `x` goes in front: the first element does not rank before it, so no element does. */
  lemma InsertAhead<T(!new)>(less: (T, T) -> bool, x: T, s: seq<T>)
    requires StrictTotal(less) && Sorted(less, s) && s != [] && !less(s[0], x)
    ensures Sorted(less, Insert(less, x, s))
    ensures multiset(Insert(less, x, s)) == multiset(s) + multiset{x}
  {
    var r := Insert(less, x, s);
    assert r == [x] + s;
    forall j | 0 <= j < |s|
      ensures !less(s[j], x)
    {
      if j > 0 && s[j] != s[0] {
        assert !less(s[j], s[0]);
      }
    }
    forall i, j | 0 <= i < j < |r|
      ensures !less(r[j], r[i])
    {
      if i > 0 {
        assert r[i] == s[i - 1] && r[j] == s[j - 1];
      } else {
        assert r[j] == s[j - 1];
      }
    }
  }

  /** The sorted rows are in rank order and are the same rows. */
  lemma {:induction false} SortSpec<T(!new)>(less: (T, T) -> bool, s: seq<T>)
    requires StrictTotal(less)
    ensures Sorted(less, Sort(less, s)) && multiset(Sort(less, s)) == multiset(s)
    decreases |s|
  {
    if s != [] {
      SortSpec(less, s[1..]);
      InsertSorted(less, s[0], Sort(less, s[1..]));
      assert s == [s[0]] + s[1..];
    }
  }

  // ----------------------------------------------------------------- top N

  function Min(a: int, b: int): int {
    if a < b then a else b
  }

  /** `groupby(...).size().sort_values(...).head(n)`. */
  function Top(desc: bool, n: nat, keys: seq<seq<string>>): seq<Group> {
    var s := Sort((g, h) => Ranked(desc, g, h), Tally(keys));
    s[..Min(n, |s|)]
  }

  /** The top `n` groups: no more than `n`, each a distinct key with its true
      row count, in rank order, and a key is left out only when all `n`
      places are taken, by groups that all rank before it. */
  lemma TopSpec(desc: bool, n: nat, keys: seq<seq<string>>)
    ensures var r := Top(desc, n, keys);
      && |r| <= n
      && (forall i :: 0 <= i < |r| ==> r[i].key in keys && r[i].size == multiset(keys)[r[i].key])
      && (forall i, j :: 0 <= i < j < |r| ==> Ranked(desc, r[i], r[j]))
      && (forall k :: k in keys && (forall i :: 0 <= i < |r| ==> r[i].key != k) ==>
            |r| == n && (n > 0 ==> Ranked(desc, r[n - 1], Group(k, multiset(keys)[k]))))
  {
    var s := Sort((g, h) => Ranked(desc, g, h), Tally(keys));
    SortedGroups(desc, keys);
    var r := s[..Min(n, |s|)];
    assert r == Top(desc, n, keys);
    forall k | k in keys && (forall i :: 0 <= i < |r| ==> r[i].key != k)
      ensures |r| == n && (n > 0 ==> Ranked(desc, r[n - 1], Group(k, multiset(keys)[k])))
    {
      var j :| 0 <= j < |s| && s[j].key == k;
      assert forall i :: 0 <= i < |r| ==> r[i] == s[i];
      assert |r| <= j < |s| && |r| == n;
      if n > 0 {
        assert r[n - 1] == s[n - 1];
        assert s[j] == Group(k, multiset(keys)[k]);
      }
    }
  }

  /** All groups, sorted: each a key of the rows with its count, every key present, strictly ranked. */
  lemma SortedGroups(desc: bool, keys: seq<seq<string>>)
    ensures var s := Sort((g, h) => Ranked(desc, g, h), Tally(keys));
      && (forall i :: 0 <= i < |s| ==> s[i].key in keys && s[i].size == multiset(keys)[s[i].key])
      && (forall k :: k in keys ==> exists j :: 0 <= j < |s| && s[j].key == k)
      && (forall i, j :: 0 <= i < j < |s| ==> Ranked(desc, s[i], s[j]))
  {
    var t := Tally(keys);
    var s := Sort((g, h) => Ranked(desc, g, h), t);
    TallyCounts(keys);
    RankedOrder(desc);
    SortSpec((g, h) => Ranked(desc, g, h), t);
    SortedMembers(t, s, keys);
    SortedRanked(desc, t, s);
  }

  /** The sorted groups are the counted groups: each a key of the rows with its count, every key present. */
  lemma SortedMembers(t: seq<Group>, s: seq<Group>, keys: seq<seq<string>>)
    requires Counts(t, keys) && multiset(s) == multiset(t)
    ensures forall i :: 0 <= i < |s| ==> s[i].key in keys && s[i].size == multiset(keys)[s[i].key]
    ensures forall k :: k in keys ==> exists j :: 0 <= j < |s| && s[j].key == k
  {
    forall i | 0 <= i < |s|
      ensures s[i].key in keys && s[i].size == multiset(keys)[s[i].key]
    {
      assert s[i] in multiset(t);
      var j :| 0 <= j < |t| && t[j] == s[i];
    }
    forall k | k in keys
      ensures exists j :: 0 <= j < |s| && s[j].key == k
    {
      var a :| 0 <= a < |t| && t[a].key == k;
      assert t[a] in multiset(s);
      var j :| 0 <= j < |s| && s[j] == t[a];
    }
  }

  /** Sorted distinct groups are strictly ranked. */
  lemma SortedRanked(desc: bool, t: seq<Group>, s: seq<Group>)
    requires DistinctKeys(t) && multiset(s) == multiset(t)
    requires StrictTotal((g, h) => Ranked(desc, g, h)) && Sorted((g, h) => Ranked(desc, g, h), s)
    ensures forall i, j :: 0 <= i < j < |s| ==> Ranked(desc, s[i], s[j])
  {
    forall i, j | 0 <= i < j < |s|
      ensures Ranked(desc, s[i], s[j])
    {
      SortDistinct(t, s, i, j);
    }
  }

  /** Two places of the sorted groups hold different groups. */
  lemma SortDistinct(t: seq<Group>, s: seq<Group>, i: int, j: int)
    requires DistinctKeys(t) && multiset(s) == multiset(t) && 0 <= i < j < |s|
    ensures s[i] != s[j]
  {
    if s[i] == s[j] {
      var x := s[i];
      assert s == s[..j] + [s[j]] + s[j + 1..];
      assert x in s[..j];
      assert multiset(s)[x] >= 2;
      AtMostOnce(t, x);
      assert false;
    }
  }

  /** Groups with distinct keys occur at most once each. */
  lemma {:induction false} AtMostOnce(t: seq<Group>, x: Group)
    requires DistinctKeys(t)
    ensures multiset(t)[x] <= 1
    decreases |t|
  {
    if t != [] {
      var init := t[..|t| - 1];
      AtMostOnce(init, x);
      assert t == init + [t[|t| - 1]];
      if x in init {
        var i :| 0 <= i < |init| && init[i] == x;
        assert t[i].key != t[|t| - 1].key;
      }
    }
  }

  // ------------------------------------------------------------ questions

  /** How many places each question shows, from its `head(n)`. */
  function Cap(question: string): nat {
    if question == "q1" then 20 else if question == "q2" then 30 else if question == "q3" then 10 else 15
  }

  /** How many key columns each grouping question has; 0 for the others. */
  function Width(question: string): nat {
    if question == "q1" then 2 else if question == "q2" then 1 else if question == "q3" then 4
    else if question == "q4" then 2 else 0
  }

  /** What `question1` to `question5` hand to `process_data`. */
  datatype Answer = Grouped(groups: seq<Group>) | Routed(trips: seq<Trip>)

  /** `main`'s dispatch: "q1" to "q4" pick their question, anything else is question 5. */
  function AnswerOf(question: string, als: seq<Airline>, aps: seq<Airport>, rs: seq<Route>): Answer {
    if question == "q1" then Grouped(Top(true, 20, Q1Keys(als, aps, rs)))
    else if question == "q2" then Grouped(Top(false, 30, Q2Keys(aps, rs)))
    else if question == "q3" then Grouped(Top(true, 10, Q3Keys(als, aps, rs)))
    else if question == "q4" then Grouped(Top(true, 15, Q4Keys(aps, rs)))
    else Routed(Sort(TripRanked, Q5Trips(aps, rs)))
  }

  /** The answer has the shape `process_data` reads for the question. */
  predicate Fitting(question: string, answer: Answer) {
    if Width(question) > 0 then
      answer.Grouped? && forall i :: 0 <= i < |answer.groups| ==> |answer.groups[i].key| == Width(question)
    else answer.Routed?
  }

  lemma {:induction false} FoundWidth(m: seq<((Route, Option<Airline>), Option<Airport>)>)
    ensures forall k :: k in Found(m) ==> |k| == 4
    decreases |m|
  {
    if m != [] {
      FoundWidth(m[..|m| - 1]);
    }
  }

  lemma AnswerFits(question: string, als: seq<Airline>, aps: seq<Airport>, rs: seq<Route>)
    ensures Fitting(question, AnswerOf(question, als, aps, rs))
  {
    var keys :=
      if question == "q1" then Q1Keys(als, aps, rs)
      else if question == "q2" then Q2Keys(aps, rs)
      else if question == "q3" then Q3Keys(als, aps, rs)
      else Q4Keys(aps, rs);
    if Width(question) > 0 {
      if question == "q3" {
        var ra := LeftMerge(rs, als, (r: Route) => r.airlineId, (a: Airline) => a.id);
        FoundWidth(LeftMerge(ra, aps, (x: (Route, Option<Airline>)) => x.0.toId, (p: Airport) => p.id));
      }
      assert forall k :: k in keys ==> |k| == Width(question);
      TopSpec(question != "q2", Cap(question), keys);
    }
  }

  // --------------------------------------------------------- process_data

  const CsvHeader := "subject,statistic"

  /** The row `process_data` writes for one group of a grouping question. */
  function GroupRow(question: string, g: Group): string
    requires Width(question) > 0 && |g.key| == Width(question)
  {
    var size := IntToString(g.size);
    if question == "q1" then g.key[0] + " (" + g.key[1] + ")," + size
    else if question == "q2" then g.key[0] + "," + size
    else if question == "q3" then "\"" + g.key[0] + " (" + g.key[1] + "), " + g.key[2] + ", " + g.key[3] + "\"," + size
    else "\"" + g.key[0] + ", " + g.key[1] + "\"," + size
  }

  /** A float with an integral value as Python prints it. */
  function FloatText(d: int): string {
    IntToString(d) + ".0"
  }

  /** The row `process_data` writes for one route of question 5. */
  function TripRow(t: Trip): string {
    t.from + "-" + t.to + "," + FloatText(t.diff)
  }

  function GroupRows(question: string, gs: seq<Group>): (rows: seq<string>)
    requires Width(question) > 0 && forall i :: 0 <= i < |gs| ==> |gs[i].key| == Width(question)
    ensures |rows| == |gs|
    decreases |gs|
  {
    if gs == [] then [] else GroupRows(question, gs[..|gs| - 1]) + [GroupRow(question, gs[|gs| - 1])]
  }

  function TripRows(ts: seq<Trip>): (rows: seq<string>)
    ensures |rows| == |ts|
    decreases |ts|
  {
    if ts == [] then [] else TripRows(ts[..|ts| - 1]) + [TripRow(ts[|ts| - 1])]
  }

  /** The CSV file, or the `IndexError` question 5 raises with fewer than ten distinct routes. */
  datatype Outcome = Csv(lines: seq<string>) | IndexError

  /** The file `process_data` writes: the header, a row per group of a
      grouping question, and for "q5" the first ten distinct routes. */
  function CsvOf(question: string, answer: Answer): Outcome
    requires Fitting(question, answer)
  {
    var rows := if Width(question) > 0 then GroupRows(question, answer.groups) else [];
    if question != "q5" then Csv([CsvHeader] + rows)
    else
      var us := Dedup(answer.trips);
      if |us| < 10 then IndexError else Csv([CsvHeader] + TripRows(us[..10]))
  }

  /** `process_data`: the header, then one row per row of the answer in the
      question's format, then for question 5 the first ten routes left by
      `clear_duplicates`. */
  method ProcessData(question: string, answer: Answer) returns (out: Outcome)
    requires Fitting(question, answer)
    ensures out == CsvOf(question, answer)
  {
    var lines := [CsvHeader];
    if answer.Grouped? {
      var gs := answer.groups;
      var i := 0;
      while i < |gs|
        invariant i <= |gs| && lines == [CsvHeader] + GroupRows(question, gs[..i])
      {
        assert gs[..i + 1][..i] == gs[..i];
        lines := lines + [GroupRow(question, gs[i])];
        i := i + 1;
      }
      assert gs[..i] == gs;
    }
    if question == "q5" {
      out := WriteRoutes(lines, answer.trips);
    } else {
      out := Csv(lines);
    }
  }

  /** The end of `process_data` for question 5: `clear_duplicates`, then
      the first ten distinct routes, which must exist. */
  method WriteRoutes(lines: seq<string>, trips: seq<Trip>) returns (out: Outcome)
    ensures var us := Dedup(trips);
      out == if |us| < 10 then IndexError else Csv(lines + TripRows(us[..10]))
  {
    var uniques := ClearDuplicates(trips);
    var written := lines;
    var i := 0;
    while i < 10
      invariant i <= 10 && i <= |uniques|
      invariant written == lines + TripRows(uniques[..i])
    {
      if i >= |uniques| {
        return IndexError;
      }
      assert uniques[..i + 1][..i] == uniques[..i];
      written := written + [TripRow(uniques[i])];
      i := i + 1;
    }
    out := Csv(written);
  }

  /** The whole program for one question over the three tables. */
  function Program(question: string, als: seq<Airline>, aps: seq<Airport>, rs: seq<Route>): Outcome {
    AnswerFits(question, als, aps, rs);
    CsvOf(question, AnswerOf(question, als, aps, rs))
  }

  /** "q1" to "q4": the header and one row per top group, at most the
      question's cap of them, each in the question's format. */
  lemma GroupedCsv(question: string, als: seq<Airline>, aps: seq<Airport>, rs: seq<Route>)
    requires Width(question) > 0
    ensures var answer := AnswerOf(question, als, aps, rs);
      Fitting(question, answer) &&
      Program(question, als, aps, rs) == Csv([CsvHeader] + GroupRows(question, answer.groups)) &&
      |answer.groups| <= Cap(question)
  {
    AnswerFits(question, als, aps, rs);
    if question == "q1" {
      TopSpec(true, 20, Q1Keys(als, aps, rs));
    } else if question == "q2" {
      TopSpec(false, 30, Q2Keys(aps, rs));
    } else if question == "q3" {
      TopSpec(true, 10, Q3Keys(als, aps, rs));
    } else {
      TopSpec(true, 15, Q4Keys(aps, rs));
    }
  }

  /** "q5": ten rows of distinct routes in rank order, or `IndexError` when fewer than ten remain. */
  lemma RoutesCsv(als: seq<Airline>, aps: seq<Airport>, rs: seq<Route>)
    ensures var ts := Sort(TripRanked, Q5Trips(aps, rs));
      var us := Dedup(ts);
      && (Program("q5", als, aps, rs).IndexError? <==> |us| < 10)
      && (|us| >= 10 ==> Program("q5", als, aps, rs) == Csv([CsvHeader] + TripRows(us[..10])))
      && (forall i, j :: 0 <= i < j < |us| ==> Apart(us[i], us[j]) && TripRanked(us[i], us[j]))
  {
    var ts := Sort(TripRanked, Q5Trips(aps, rs));
    var us := Dedup(ts);
    TripOrder();
    SortSpec(TripRanked, Q5Trips(aps, rs));
    DedupInOrder(ts);
    DedupDistinct(ts);
    var at := KeptAt(ts);
    forall i, j | 0 <= i < j < |us|
      ensures TripRanked(us[i], us[j])
    {
      assert at[i] < at[j];
      assert !TripRanked(ts[at[j]], ts[at[i]]);
    }
  }

  /** Any other question is answered as question 5 but writes only the header. */
  lemma OtherCsv(question: string, als: seq<Airline>, aps: seq<Airport>, rs: seq<Route>)
    requires Width(question) == 0 && question != "q5"
    ensures Program(question, als, aps, rs) == Csv([CsvHeader])
  {
  }
}
