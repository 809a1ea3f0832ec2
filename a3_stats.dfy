/** The route statistics of a3/route_manager.c: records of thirteen
    `Key: value` lines are cleaned, counted per key in a linked list,
    copied into a list sorted by frequency and key, and the first `n`
    of them are written as CSV rows. */
module RouteStats {
  import opened Text
  import opened LinkedList

  /** C's `isalpha` in the "C" locale. */
  predicate IsAlpha(c: char) {
    'a' <= c <= 'z' || 'A' <= c <= 'Z'
  }

  predicate HasLetter(s: string) {
    exists k :: 0 <= k < |s| && IsAlpha(s[k])
  }

  /** Whether `strpchr` keeps `s[i]`: a letter always, a space or a dash
      only once a letter has been seen before it, anything else never. */
  predicate Kept(s: string, i: nat)
    requires i < |s|
  {
    IsAlpha(s[i]) || ((s[i] == ' ' || s[i] == '-') && HasLetter(s[..i]))
  }

  /** The characters of `s` that `strpchr` keeps, in their order. */
  function Strip(s: string): (r: string)
    decreases |s|
  {
    if s == [] then [] else Strip(s[..|s| - 1]) + (if Kept(s, |s| - 1) then [s[|s| - 1]] else [])
  }

  /** `strpchr`: copies the kept characters into a buffer of `strlen(str)`
      characters and NUL-terminates it, so at least one character must be
      dropped for the terminator to fit. */
  method Strpchr(str: string) returns (r: string)
    requires |Strip(str)| < |str|
    ensures r == Strip(str)
  {
    var buf := new char[|str|];
    var i, j := 0, 0;
    var start := 0;
    while i < |str|
      invariant 0 <= j <= i <= |str|
      invariant j == |Strip(str[..i])| && buf[..j] == Strip(str[..i])
      invariant start == (if HasLetter(str[..i]) then 1 else 0)
    {
      assert str[..i + 1][..i] == str[..i];
      if IsAlpha(str[i]) || (start == 1 && (str[i] == ' ' || str[i] == '-')) {
        buf[j] := str[i];
        start := 1;
        j := j + 1;
      }
      i := i + 1;
    }
    assert str[..i] == str;
    buf[j] := '\0';
    r := buf[..j];
  }

  /** Only letters, spaces and dashes survive, and the first survivor is a letter. */
  lemma {:induction false} StripChars(s: string)
    ensures forall k :: 0 <= k < |Strip(s)| ==> IsAlpha(Strip(s)[k]) || Strip(s)[k] == ' ' || Strip(s)[k] == '-'
    ensures Strip(s) != [] ==> IsAlpha(Strip(s)[0])
    ensures HasLetter(s) ==> Strip(s) != []
    ensures |Strip(s)| <= |s|
    decreases |s|
  {
    if s != [] {
      var p := s[..|s| - 1];
      StripChars(p);
    }
  }

  /** A string of letters, spaces and dashes that starts with a letter passes `strpchr` unchanged. */
  lemma {:induction false} StripClean(t: string)
    requires forall k :: 0 <= k < |t| ==> IsAlpha(t[k]) || t[k] == ' ' || t[k] == '-'
    requires t != [] ==> IsAlpha(t[0])
    ensures Strip(t) == t
    decreases |t|
  {
    if t != [] {
      var p := t[..|t| - 1];
      StripClean(p);
      if |t| > 1 {
        assert IsAlpha(p[0]);
      }
      assert t == p + [t[|t| - 1]];
    }
  }

  /** `strpchr` is idempotent: cleaning a cleaned value changes nothing. */
  lemma StripIdempotent(s: string)
    ensures Strip(Strip(s)) == Strip(s)
  {
    StripChars(s);
    StripClean(Strip(s));
  }

  /** The eleven columns `store_column_val` stores; 7 (altitude) and 12 are skipped. */
  predicate StoredColumn(column: int) {
    0 <= column <= 11 && column != 7
  }

  /** The field of a record that column `column` is stored into. */
  function ColumnValue(r: Route, column: int): string
    requires StoredColumn(column)
  {
    match column
    case 0 => r.airlineName
    case 1 => r.airlineIcaoUniqueCode
    case 2 => r.airlineCountry
    case 3 => r.fromAirportName
    case 4 => r.fromAirportCity
    case 5 => r.fromAirportCountry
    case 6 => r.fromAirportIcaoUniqueCode
    case 8 => r.toAirportName
    case 9 => r.toAirportCity
    case 10 => r.toAirportCountry
    case _ => r.toAirportIcaoUniqueCode
  }

  /** The record after `store_column_val(data, v, column)`. */
  function SetColumn(r: Route, column: int, v: string): Route {
    match column
    case 0 => r.(airlineName := v)
    case 1 => r.(airlineIcaoUniqueCode := v)
    case 2 => r.(airlineCountry := v)
    case 3 => r.(fromAirportName := v)
    case 4 => r.(fromAirportCity := v)
    case 5 => r.(fromAirportCountry := v)
    case 6 => r.(fromAirportIcaoUniqueCode := v)
    case 8 => r.(toAirportName := v)
    case 9 => r.(toAirportCity := v)
    case 10 => r.(toAirportCountry := v)
    case 11 => r.(toAirportIcaoUniqueCode := v)
    case _ => r
  }

  /** A stored column reads back what was stored and no other column changes;
      any other column number leaves the record as it was. */
  lemma SetColumnSpec(r: Route, column: int, v: string)
    ensures StoredColumn(column) ==> ColumnValue(SetColumn(r, column, v), column) == v
    ensures forall c :: StoredColumn(c) && c != column ==> ColumnValue(SetColumn(r, column, v), c) == ColumnValue(r, c)
    ensures !StoredColumn(column) ==> SetColumn(r, column, v) == r
  {
  }

  /** `store_column_val`: writes `token` into the field for `column`; the
      frequency and the link are not touched. */
  method StoreColumnVal(data: Node, token: string, column: int)
    modifies data`route
    ensures data.route == SetColumn(old(data.route), column, token)
  {
    match column
    case 0 => data.route := data.route.(airlineName := token);
    case 1 => data.route := data.route.(airlineIcaoUniqueCode := token);
    case 2 => data.route := data.route.(airlineCountry := token);
    case 3 => data.route := data.route.(fromAirportName := token);
    case 4 => data.route := data.route.(fromAirportCity := token);
    case 5 => data.route := data.route.(fromAirportCountry := token);
    case 6 => data.route := data.route.(fromAirportIcaoUniqueCode := token);
    case 8 => data.route := data.route.(toAirportName := token);
    case 9 => data.route := data.route.(toAirportCity := token);
    case 10 => data.route := data.route.(toAirportCountry := token);
    case 11 => data.route := data.route.(toAirportIcaoUniqueCode := token);
    case _ =>
  }

  /** What one record adds to a count: questions 1 and 3 count up from 1,
      question 2 counts down from -1 so that the descending sort lists the
      rarest countries first. */
  function Delta(question: string): int {
    if question == "2" then -1 else 1
  }

  /** `n` records' worth of count: negated for question 2. */
  function Signed(question: string, n: int): int {
    if question == "2" then -n else n
  }

  /** Question 1 counts only flights into Canada; the others count every record. */
  predicate Accepted(question: string, r: Route) {
    question != "1" || r.toAirportCountry == "Canada"
  }

  predicate HasKey(question: string, es: seq<Entry>, key: string) {
    exists j :: 0 <= j < |es| && KeyOf(question, es[j].route) == key
  }

  /** Every entry whose key is `key` moves by `Delta(question)`. */
  function Bump(question: string, es: seq<Entry>, key: string): (bs: seq<Entry>)
    ensures |bs| == |es|
  {
    seq(|es|, j requires 0 <= j < |es| =>
      if KeyOf(question, es[j].route) == key then es[j].(frequency := es[j].frequency + Delta(question)) else es[j])
  }

  /** The list's value after `question1`/`question2`/`question3` has seen record `r`. */
  function Step(question: string, es: seq<Entry>, r: Route): seq<Entry> {
    var key := KeyOf(question, r);
    if !Accepted(question, r) then es
    else if HasKey(question, es, key) then Bump(question, es, key)
    else [Entry(r, Delta(question))] + es
  }

  /** The shared body of `question1`-`question3`: the nodes whose key
      equals the record's are moved by `Delta(question)`; when none matched,
      the record itself is put in front with count `Delta(question)`. The
      matched record is freed in the source, which is not modelled. */
  method CountRecord(question: string, data: Node, list: Node?, ghost nodes: seq<Node>)
    returns (r: Node?, ghost nodes': seq<Node>)
    requires IsList(list, nodes) && data !in nodes
    requires Accepted(question, data.route)
    modifies nodes`frequency, data`frequency, data`next
    ensures nodes' == nodes || nodes' == [data] + nodes
    ensures IsList(r, nodes') && Entries(nodes') == Step(question, old(Entries(nodes)), old(data.route))
  {
    var key := KeyOf(question, data.route);
    var found := BumpMatches(question, key, list, nodes);
    if found == 0 {
      data.frequency := Delta(question);
      r, nodes' := AddFront(list, data, nodes);
    } else {
      r, nodes' := list, nodes;
    }
  }

  /** The scan of `question1`-`question3`: moves every node whose key is
      `key` by `Delta(question)`, and reports whether there was one. */
  method BumpMatches(question: string, key: string, list: Node?, ghost nodes: seq<Node>) returns (found: int)
    requires IsList(list, nodes)
    modifies nodes`frequency
    ensures found == (if HasKey(question, old(Entries(nodes)), key) then 1 else 0)
    ensures Entries(nodes) == Bump(question, old(Entries(nodes)), key)
    ensures found == 0 ==> Entries(nodes) == old(Entries(nodes))
  {
    ghost var es := Entries(nodes);
    EntriesSpec(nodes);
    var head := list;
    found := 0;
    ghost var i := 0;
    while head != null
      invariant 0 <= i <= |nodes| && IsList(list, nodes)
      invariant head == if i < |nodes| then nodes[i] else null
      invariant forall j :: 0 <= j < |nodes| ==>
        nodes[j].Value() == if j < i then Bump(question, es, key)[j] else es[j]
      invariant found == (if exists j :: 0 <= j < i && KeyOf(question, es[j].route) == key then 1 else 0)
      decreases |nodes| - i
    {
      var next := head.next;
      assert forall j :: 0 <= j < |nodes| && j != i ==> nodes[j] != head;
      if KeyOf(question, head.route) == key {
        found := 1;
        head.frequency := head.frequency + Delta(question);
      }
      head := next;
      i := i + 1;
    }
    EntriesFromValues(nodes, Bump(question, es, key));
  }

  /** `question1`: a record flying into Canada is counted per airline name;
      any other record leaves the list as it is. */
  method Question1(data: Node, list: Node?, ghost nodes: seq<Node>) returns (r: Node?, ghost nodes': seq<Node>)
    requires IsList(list, nodes) && data !in nodes
    modifies nodes`frequency, data`frequency, data`next
    ensures nodes' == nodes || nodes' == [data] + nodes
    ensures IsList(r, nodes') && Entries(nodes') == Step("1", old(Entries(nodes)), old(data.route))
  {
    if data.route.toAirportCountry == "Canada" {
      r, nodes' := CountRecord("1", data, list, nodes);
    } else {
      r, nodes' := list, nodes;
    }
  }

  /** `question2`: every record is counted, negated, per destination country. */
  method Question2(data: Node, list: Node?, ghost nodes: seq<Node>) returns (r: Node?, ghost nodes': seq<Node>)
    requires IsList(list, nodes) && data !in nodes
    modifies nodes`frequency, data`frequency, data`next
    ensures nodes' == nodes || nodes' == [data] + nodes
    ensures IsList(r, nodes') && Entries(nodes') == Step("2", old(Entries(nodes)), old(data.route))
  {
    r, nodes' := CountRecord("2", data, list, nodes);
  }

  /** `question3`: every record is counted per destination airport name. */
  method Question3(data: Node, list: Node?, ghost nodes: seq<Node>) returns (r: Node?, ghost nodes': seq<Node>)
    requires IsList(list, nodes) && data !in nodes
    modifies nodes`frequency, data`frequency, data`next
    ensures nodes' == nodes || nodes' == [data] + nodes
    ensures IsList(r, nodes') && Entries(nodes') == Step("3", old(Entries(nodes)), old(data.route))
  {
    r, nodes' := CountRecord("3", data, list, nodes);
  }

  /** The aggregated list after the records `recs`, one `Step` per record. */
  function Tally(question: string, recs: seq<Route>): seq<Entry>
    decreases |recs|
  {
    if recs == [] then [] else Step(question, Tally(question, recs[..|recs| - 1]), recs[|recs| - 1])
  }

  /** How many of `recs` are counted under `key`. */
  function Occurrences(question: string, recs: seq<Route>, key: string): nat
    decreases |recs|
  {
    if recs == [] then 0
    else
      var last := recs[|recs| - 1];
      Occurrences(question, recs[..|recs| - 1], key) + if Accepted(question, last) && KeyOf(question, last) == key then 1 else 0
  }

  /** How many of `recs` are counted at all. */
  function AcceptedCount(question: string, recs: seq<Route>): nat
    decreases |recs|
  {
    if recs == [] then 0
    else AcceptedCount(question, recs[..|recs| - 1]) + (if Accepted(question, recs[|recs| - 1]) then 1 else 0)
  }

  predicate UniqueKeys(question: string, es: seq<Entry>) {
    forall i, j :: 0 <= i < j < |es| ==> KeyOf(question, es[i].route) != KeyOf(question, es[j].route)
  }

  /** `es` counts `recs`: one entry per key that some counted record has,
      and each entry's frequency is `Delta(question)` times the number of
      counted records with its key. */
  ghost predicate Counts(question: string, es: seq<Entry>, recs: seq<Route>) {
    && UniqueKeys(question, es)
    && (forall key :: HasKey(question, es, key) <==> Occurrences(question, recs, key) > 0)
    && (forall j :: 0 <= j < |es| ==>
          es[j].frequency == Signed(question, Occurrences(question, recs, KeyOf(question, es[j].route))))
  }

  /** The aggregated list counts every record seen so far. */
  lemma {:induction false} TallySpec(question: string, recs: seq<Route>)
    ensures Counts(question, Tally(question, recs), recs)
    decreases |recs|
  {
    if recs != [] {
      var p, r := recs[..|recs| - 1], recs[|recs| - 1];
      TallySpec(question, p);
      assert recs == p + [r];
      StepCounts(question, Tally(question, p), p, r);
    }
  }

  lemma TallyUnique(question: string, recs: seq<Route>)
    ensures UniqueKeys(question, Tally(question, recs))
  {
    TallySpec(question, recs);
  }

  /** One more record keeps the count exact. */
  lemma StepCounts(question: string, es: seq<Entry>, p: seq<Route>, r: Route)
    requires Counts(question, es, p)
    ensures Counts(question, Step(question, es, r), p + [r])
  {
    var key := KeyOf(question, r);
    assert (p + [r])[..|p|] == p;
    assert forall k :: (Occurrences(question, p + [r], k) ==
      Occurrences(question, p, k) + (if Accepted(question, r) && key == k then 1 else 0));
    if !Accepted(question, r) {
    } else if HasKey(question, es, key) {
      BumpCounts(question, es, p, r);
    } else {
      PrependCounts(question, es, p, r);
    }
  }

  lemma BumpCounts(question: string, es: seq<Entry>, p: seq<Route>, r: Route)
    requires Counts(question, es, p) && Accepted(question, r) && HasKey(question, es, KeyOf(question, r))
    requires forall k :: (Occurrences(question, p + [r], k) ==
      Occurrences(question, p, k) + (if KeyOf(question, r) == k then 1 else 0))
    ensures Counts(question, Bump(question, es, KeyOf(question, r)), p + [r])
  {
    var after := Bump(question, es, KeyOf(question, r));
    assert forall j :: 0 <= j < |after| ==> after[j].route == es[j].route;
    BumpHasKey(question, es, KeyOf(question, r));
  }

  /** Bumping changes frequencies only, so the keys present stay the same. */
  lemma BumpHasKey(question: string, es: seq<Entry>, key: string)
    ensures forall k :: HasKey(question, Bump(question, es, key), k) <==> HasKey(question, es, k)
  {
    var after := Bump(question, es, key);
    forall k | HasKey(question, after, k) ensures HasKey(question, es, k) {
      var j :| 0 <= j < |after| && KeyOf(question, after[j].route) == k;
      assert KeyOf(question, es[j].route) == k;
    }
    forall k | HasKey(question, es, k) ensures HasKey(question, after, k) {
      var j :| 0 <= j < |es| && KeyOf(question, es[j].route) == k;
      assert KeyOf(question, after[j].route) == k;
    }
  }

  lemma PrependCounts(question: string, es: seq<Entry>, p: seq<Route>, r: Route)
    requires Counts(question, es, p) && Accepted(question, r) && !HasKey(question, es, KeyOf(question, r))
    requires forall k :: (Occurrences(question, p + [r], k) ==
      Occurrences(question, p, k) + (if KeyOf(question, r) == k then 1 else 0))
    ensures Counts(question, [Entry(r, Delta(question))] + es, p + [r])
  {
    var after := [Entry(r, Delta(question))] + es;
    assert forall j :: 0 < j < |after| ==> after[j] == es[j - 1];
    PrependUnique(question, es, r);
    PrependHasKey(question, es, p, r);
  }

  /** A front entry with a key the list lacks keeps the keys unique. */
  lemma PrependUnique(question: string, es: seq<Entry>, r: Route)
    requires UniqueKeys(question, es) && !HasKey(question, es, KeyOf(question, r))
    ensures UniqueKeys(question, [Entry(r, Delta(question))] + es)
  {
    var after := [Entry(r, Delta(question))] + es;
    forall i, j | 0 <= i < j < |after| ensures KeyOf(question, after[i].route) != KeyOf(question, after[j].route) {
      assert after[j] == es[j - 1];
      if i > 0 {
        assert after[i] == es[i - 1];
      }
    }
  }

  /** The keys of the list with a new front entry are those of the records with one more record. */
  lemma PrependHasKey(question: string, es: seq<Entry>, p: seq<Route>, r: Route)
    requires Counts(question, es, p) && Accepted(question, r)
    requires forall k :: (Occurrences(question, p + [r], k) ==
      Occurrences(question, p, k) + (if KeyOf(question, r) == k then 1 else 0))
    ensures forall k :: HasKey(question, [Entry(r, Delta(question))] + es, k) <==> Occurrences(question, p + [r], k) > 0
  {
    var key := KeyOf(question, r);
    var after := [Entry(r, Delta(question))] + es;
    forall k | HasKey(question, after, k) ensures Occurrences(question, p + [r], k) > 0 {
      var j :| 0 <= j < |after| && KeyOf(question, after[j].route) == k;
      if j > 0 {
        assert KeyOf(question, es[j - 1].route) == k;
      }
    }
    forall k | Occurrences(question, p + [r], k) > 0 ensures HasKey(question, after, k) {
      if k == key {
        assert KeyOf(question, after[0].route) == k;
      } else {
        var j :| 0 <= j < |es| && KeyOf(question, es[j].route) == k;
        assert KeyOf(question, after[j + 1].route) == k;
      }
    }
  }

  /** The sum of the frequencies in a list. */
  function Total(es: seq<Entry>): int
    decreases |es|
  {
    if es == [] then 0 else es[0].frequency + Total(es[1..])
  }

  /** How many entries have key `key`. */
  function KeyCount(question: string, es: seq<Entry>, key: string): nat
    decreases |es|
  {
    if es == [] then 0 else (if KeyOf(question, es[0].route) == key then 1 else 0) + KeyCount(question, es[1..], key)
  }

  lemma {:induction false} BumpTotal(question: string, es: seq<Entry>, key: string)
    ensures Total(Bump(question, es, key)) == Total(es) + Signed(question, KeyCount(question, es, key))
    decreases |es|
  {
    if es != [] {
      BumpTotal(question, es[1..], key);
      assert Bump(question, es, key)[1..] == Bump(question, es[1..], key);
    }
  }

  /** With unique keys, a key is held by one entry or by none. */
  lemma {:induction false} UniqueKeyCount(question: string, es: seq<Entry>, key: string)
    requires UniqueKeys(question, es)
    ensures KeyCount(question, es, key) == if HasKey(question, es, key) then 1 else 0
    decreases |es|
  {
    if es != [] {
      UniqueKeyCount(question, es[1..], key);
    }
  }

  /** The frequencies add up to the number of counted records (negated for question 2). */
  lemma {:induction false} TallyTotal(question: string, recs: seq<Route>)
    ensures Total(Tally(question, recs)) == Signed(question, AcceptedCount(question, recs))
    decreases |recs|
  {
    if recs != [] {
      var p, r := recs[..|recs| - 1], recs[|recs| - 1];
      TallyTotal(question, p);
      var es, key := Tally(question, p), KeyOf(question, r);
      if Accepted(question, r) && HasKey(question, es, key) {
        TallyUnique(question, p);
        BumpTotal(question, es, key);
        UniqueKeyCount(question, es, key);
      } else if Accepted(question, r) {
        assert ([Entry(r, Delta(question))] + es)[1..] == es;
      }
    }
  }

  /** What `process_file` needs of an input line: a `:` with at least one
      character after it (the value starts two characters on), and a value
      from which `strpchr` drops something, typically the newline. */
  predicate LineOk(line: string) {
    var c := IndexOf(line, ':');
    c + 2 <= |line| && |Strip(line[c + 2..])| < |line| - (c + 2)
  }

  /** The cleaned value of a `Key: value` line. */
  function FieldValue(line: string): string
    requires LineOk(line)
  {
    Strip(line[IndexOf(line, ':') + 2..])
  }

  function Fields(chunk: seq<string>): (vs: seq<string>)
    requires forall k :: 0 <= k < |chunk| ==> LineOk(chunk[k])
    ensures |vs| == |chunk|
  {
    seq(|chunk|, k requires 0 <= k < |chunk| && LineOk(chunk[k]) => FieldValue(chunk[k]))
  }

  /** One more line of a record extends its values by the line's value. */
  lemma FieldsPrefix(chunk: seq<string>, i: nat)
    requires i < |chunk| && forall k :: 0 <= k < |chunk| ==> LineOk(chunk[k])
    ensures RecordOf(Fields(chunk[..i + 1])) == SetColumn(RecordOf(Fields(chunk[..i])), i, FieldValue(chunk[i]))
  {
    assert Fields(chunk[..i + 1])[..i] == Fields(chunk[..i]);
  }

  /** A fresh node's record after its first `|values|` columns were stored. */
  function RecordOf(values: seq<string>): Route
    decreases |values|
  {
    if values == [] then EmptyRoute
    else SetColumn(RecordOf(values[..|values| - 1]), |values| - 1, values[|values| - 1])
  }

  /** Every stored column of a record holds the value of its line. */
  lemma {:induction false} RecordOfSpec(values: seq<string>)
    ensures forall c :: StoredColumn(c) && c < |values| ==> ColumnValue(RecordOf(values), c) == values[c]
    decreases |values|
  {
    if values != [] {
      var p := values[..|values| - 1];
      RecordOfSpec(p);
      SetColumnSpec(RecordOf(p), |p|, values[|p|]);
    }
  }

  /** The records of `body`, thirteen lines each; a shorter tail is dropped. */
  function Chunks(body: seq<string>): seq<Route>
    requires forall k :: 0 <= k < |body| ==> LineOk(body[k])
    decreases |body|
  {
    if |body| < 13 then [] else [RecordOf(Fields(body[..13]))] + Chunks(body[13..])
  }

  /** The records of an input file; its first line is a header. */
  function Records(lines: seq<string>): seq<Route>
    requires forall k :: 1 <= k < |lines| ==> LineOk(lines[k])
  {
    if lines == [] then [] else Chunks(lines[1..])
  }

  /** One line of a record: the value after `": "` is cleaned by `strpchr`
      and stored as column `column`. */
  method StoreLine(data: Node, line: string, column: int)
    requires LineOk(line)
    modifies data`route
    ensures data.route == SetColumn(old(data.route), column, FieldValue(line))
  {
    var token := Strpchr(line[IndexOf(line, ':') + 2..]);
    StoreColumnVal(data, token, column);
  }

  /** Reads one record of `process_file`: up to thirteen lines from `pos`
      into a fresh node. `complete` is false when the input ran out first. */
  method ReadRecord(lines: seq<string>, pos: nat) returns (data: Node, complete: bool)
    requires pos <= |lines|
    requires forall k :: pos <= k < |lines| ==> LineOk(lines[k])
    ensures fresh(data) && data.next == null && data.frequency == 0
    ensures complete <==> pos + 13 <= |lines|
    ensures complete ==> data.route == RecordOf(Fields(lines[pos..pos + 13]))
  {
    data := new Node();
    complete := true;
    ghost var rest := lines[pos..];
    var i := 0;
    while i < 13
      invariant 0 <= i <= 13 && i <= |rest|
      invariant data.next == null && data.frequency == 0
      invariant data.route == RecordOf(Fields(rest[..i]))
    {
      if pos + i >= |lines| {
        complete := false;
        break;
      }
      StoreLine(data, lines[pos + i], i);
      FieldsPrefix(rest, i);
      i := i + 1;
    }
    if complete {
      assert rest[..13] == lines[pos..pos + 13];
    }
  }

  /** The tally key a question selects: anything but "1" and "2" is handled as question 3. */
  function Counted(question: string): string {
    if question == "1" || question == "2" then question else "3"
  }

  /** Reading one more complete record extends the records already read. */
  lemma ChunksStep(lines: seq<string>, pos: nat, done: seq<Route>)
    requires 1 <= pos && pos + 13 <= |lines| && forall k :: 1 <= k < |lines| ==> LineOk(lines[k])
    requires Chunks(lines[1..]) == done + Chunks(lines[pos..])
    ensures Chunks(lines[1..]) == (done + [RecordOf(Fields(lines[pos..pos + 13]))]) + Chunks(lines[pos + 13..])
  {
    var rest := lines[pos..];
    assert rest[..13] == lines[pos..pos + 13];
    assert rest[13..] == lines[pos + 13..];
  }

  /** Fewer than thirteen lines left make no further record. */
  lemma ChunksEnd(lines: seq<string>, pos: nat, done: seq<Route>)
    requires 1 <= pos <= |lines| < pos + 13 && forall k :: 1 <= k < |lines| ==> LineOk(lines[k])
    requires Chunks(lines[1..]) == done + Chunks(lines[pos..])
    ensures Chunks(lines[1..]) == done
  {
  }

  lemma TallySnoc(question: string, recs: seq<Route>, r: Route)
    ensures Tally(question, recs + [r]) == Step(question, Tally(question, recs), r)
  {
    assert (recs + [r])[..|recs|] == recs;
  }

  /** The question dispatch inside the record loop of `process_file`. */
  method CountInto(question: string, data: Node, list: Node?, ghost nodes: seq<Node>) returns (r: Node?, ghost nodes': seq<Node>)
    requires IsList(list, nodes) && data !in nodes
    modifies nodes`frequency, data`frequency, data`next
    ensures nodes' == nodes || nodes' == [data] + nodes
    ensures IsList(r, nodes') && Entries(nodes') == Step(Counted(question), old(Entries(nodes)), old(data.route))
  {
    if question == "1" {
      r, nodes' := Question1(data, list, nodes);
    } else if question == "2" {
      r, nodes' := Question2(data, list, nodes);
    } else {
      r, nodes' := Question3(data, list, nodes);
    }
  }

  /** The record loop of `process_file`: after the header, each complete
      record of thirteen lines is counted by the question's function; a
      trailing incomplete record is discarded. */
  method Aggregate(lines: seq<string>, question: string) returns (list: Node?, ghost nodes: seq<Node>)
    requires forall k :: 1 <= k < |lines| ==> LineOk(lines[k])
    ensures IsList(list, nodes) && Entries(nodes) == Tally(Counted(question), Records(lines))
  {
    if |lines| == 0 {
      return null, [];
    }
    list, nodes := CountRecords(lines, question);
  }

  /** One pass of the record loop: reads the thirteen lines at `pos` into a
      fresh node and, when the record is complete, counts it. */
  method CountNext(lines: seq<string>, pos: nat, question: string, list: Node?, ghost nodes: seq<Node>)
    returns (complete: bool, r: Node?, ghost nodes': seq<Node>)
    requires 1 <= pos <= |lines| && forall k :: 1 <= k < |lines| ==> LineOk(lines[k])
    requires IsList(list, nodes)
    modifies nodes`frequency
    ensures complete <==> pos + 13 <= |lines|
    ensures nodes' == nodes || (|nodes'| == |nodes| + 1 && nodes'[1..] == nodes && fresh(nodes'[0]))
    ensures IsList(r, nodes')
    ensures !complete ==> Entries(nodes') == old(Entries(nodes))
    ensures complete ==> Entries(nodes') == Step(Counted(question), old(Entries(nodes)), RecordOf(Fields(lines[pos..pos + 13])))
  {
    var data;
    data, complete := ReadRecord(lines, pos);
    if !complete {
      return complete, list, nodes;
    }
    r, nodes' := CountInto(question, data, list, nodes);
  }

  method CountRecords(lines: seq<string>, question: string) returns (list: Node?, ghost nodes: seq<Node>)
    requires 1 <= |lines| && forall k :: 1 <= k < |lines| ==> LineOk(lines[k])
    ensures IsList(list, nodes) && Entries(nodes) == Tally(Counted(question), Chunks(lines[1..]))
  {
    list, nodes := null, [];
    ghost var done: seq<Route> := [];
    var pos := 1;
    while true
      invariant 1 <= pos <= |lines|
      invariant Chunks(lines[1..]) == done + Chunks(lines[pos..])
      invariant IsList(list, nodes) && Entries(nodes) == Tally(Counted(question), done)
      invariant fresh(set n | n in nodes)
      decreases |lines| - pos
    {
      var complete;
      complete, list, nodes := CountNext(lines, pos, question, list, nodes);
      if !complete {
        ChunksEnd(lines, pos, done);
        break;
      }
      ChunksStep(lines, pos, done);
      TallySnoc(Counted(question), done, RecordOf(Fields(lines[pos..pos + 13])));
      done := done + [RecordOf(Fields(lines[pos..pos + 13]))];
      pos := pos + 13;
    }
  }

  /** The list that the sort loop of `process_file` builds: the entries
      in list order, each inserted in turn by `add_inorder`. */
  function SortAll(question: string, es: seq<Entry>): seq<Entry>
    decreases |es|
  {
    if es == [] then [] else InsertInOrder(question, SortAll(question, es[..|es| - 1]), es[|es| - 1])
  }

  /** The sorted list is in order and holds exactly the entries it was built from. */
  lemma {:induction false} SortAllSpec(question: string, es: seq<Entry>)
    ensures Sorted(question, SortAll(question, es))
    ensures multiset(SortAll(question, es)) == multiset(es)
    decreases |es|
  {
    if es != [] {
      var p, e := es[..|es| - 1], es[|es| - 1];
      SortAllSpec(question, p);
      InsertKeepsSorted(question, SortAll(question, p), e);
      InsertIsPermutation(question, SortAll(question, p), e);
      assert es == p + [e];
    }
  }

  /** One pass of the sort loop: `copy` the node and `add_inorder` the copy. */
  method InsertCopy(sorted: Node?, src: Node, question: string, ghost snodes: seq<Node>)
    returns (r: Node?, ghost snodes': seq<Node>)
    requires IsList(sorted, snodes)
    modifies snodes`next
    ensures IsList(r, snodes') && Entries(snodes') == InsertInOrder(question, old(Entries(snodes)), src.Value())
    ensures forall m :: m in snodes' ==> m in snodes || fresh(m)
  {
    var data := new Node.Copy(src);
    r, snodes' := AddInOrder(sorted, data, question, snodes);
  }

  /** The sort loop of `process_file`: every node of the tally list is
      copied and the copy inserted in order into a new list; the tally list
      itself is left as it is. */
  method SortByFrequency(list: Node?, question: string, ghost nodes: seq<Node>)
    returns (sorted: Node?, ghost snodes: seq<Node>)
    requires IsList(list, nodes)
    ensures IsList(sorted, snodes) && Entries(snodes) == SortAll(question, Entries(nodes))
    ensures fresh(set n | n in snodes)
  {
    ghost var es := Entries(nodes);
    Successors(list, nodes);
    sorted, snodes := null, [];
    var head := list;
    ghost var i := 0;
    while head != null
      invariant 0 <= i <= |nodes|
      invariant head == if i < |nodes| then nodes[i] else null
      invariant IsList(sorted, snodes) && Entries(snodes) == SortAll(question, es[..i])
      invariant fresh(set n | n in snodes)
      decreases |nodes| - i
    {
      EntryAt(nodes, i);
      var next := head.next;
      sorted, snodes := InsertCopy(sorted, head, question, snodes);
      assert es[..i + 1][..i] == es[..i];
      head := next;
      i := i + 1;
    }
    assert es[..i] == es;
  }

  /** The statistic `write_file` prints: the frequency, negated back for question 2. */
  function Statistic(question: string, e: Entry): int {
    if question == "2" then e.frequency * -1 else e.frequency
  }

  /** The subject column `write_file` prints for each question. */
  function Subject(question: string, r: Route): string {
    if question == "1" then r.airlineName + " (" + r.airlineIcaoUniqueCode + ")"
    else if question == "2" then r.toAirportCountry
    else "\"" + r.toAirportName + " (" + r.toAirportIcaoUniqueCode + "), " + r.toAirportCity + ", " + r.toAirportCountry + "\""
  }

  /** One output line, without its newline. */
  function Row(question: string, e: Entry): string {
    Subject(question, e.route) + "," + IntToString(Statistic(question, e))
  }

  /** How many entries `write_file` prints: the first `n`, or all when there are fewer. */
  function Shown(n: int, len: nat): (k: nat)
    ensures k <= len && (0 < n < len ==> k == n) && (n >= len ==> k == len) && (n <= 0 ==> k == 0)
  {
    if n <= 0 then 0 else if n < len then n else len
  }

  /** The lines of the output file: the header, then one row per shown entry. */
  function Report(question: string, n: int, es: seq<Entry>): seq<string> {
    Lines(question, es[..Shown(n, |es|)])
  }

  /** The header followed by one row per entry, in order. */
  function Lines(question: string, es: seq<Entry>): (ls: seq<string>)
    decreases |es|
  {
    if es == [] then ["subject,statistic"] else Lines(question, es[..|es| - 1]) + [Row(question, es[|es| - 1])]
  }

  /** `write_file`: the header, then one row for each of the first `n` nodes. */
  method WriteFile(question: string, n: int, sorted: Node?, ghost nodes: seq<Node>) returns (out: seq<string>)
    requires IsList(sorted, nodes)
    ensures out == Report(question, n, Entries(nodes))
  {
    ghost var es := Entries(nodes);
    out := ["subject,statistic"];
    var head := sorted;
    var i := 0;
    while head != null && i < n
      invariant 0 <= i <= |nodes| && i <= Shown(n, |nodes|)
      invariant head == if i < |nodes| then nodes[i] else null
      invariant out == Report(question, i, es)
      decreases |nodes| - i
    {
      EntryAt(nodes, i);
      out := PrintRow(question, head, out, es, i);
      head := head.next;
      i := i + 1;
    }
    ReportSame(question, i, n, es);
  }

  /** One `fprintf` of `write_file`'s loop: the row of node `i` extends the report by one entry. */
  method PrintRow(question: string, node: Node, out: seq<string>, ghost es: seq<Entry>, ghost i: nat) returns (out': seq<string>)
    requires i < |es| && node.Value() == es[i] && out == Report(question, i, es)
    ensures out' == Report(question, i + 1, es)
  {
    ReportStep(question, i, es);
    out' := out + [Row(question, node.Value())];
  }

  /** Showing one more entry adds its row at the end. */
  lemma ReportStep(question: string, i: nat, es: seq<Entry>)
    requires i < |es|
    ensures Report(question, i + 1, es) == Report(question, i, es) + [Row(question, es[i])]
  {
    assert Shown(i + 1, |es|) == i + 1 && Shown(i, |es|) == i;
    var p := es[..i + 1];
    assert p[..|p| - 1] == es[..i] && p[|p| - 1] == es[i];
    assert Lines(question, p) == Lines(question, es[..i]) + [Row(question, es[i])];
  }

  /** Two limits that show the same number of entries give the same report. */
  lemma ReportSame(question: string, i: int, n: int, es: seq<Entry>)
    requires Shown(i, |es|) == Shown(n, |es|)
    ensures Report(question, i, es) == Report(question, n, es)
  {
  }

  /** The text after the last comma of a line: the statistic column of a row read back as CSV. */
  function LastField(s: string): (t: string)
    decreases |s|
  {
    if s == [] || s[|s| - 1] == ',' then [] else LastField(s[..|s| - 1]) + [s[|s| - 1]]
  }

  lemma {:induction false} LastFieldAfter(p: string, t: string)
    requires ',' !in t
    ensures LastField(p + "," + t) == t
    decreases |t|
  {
    var s := p + "," + t;
    if t == [] {
      assert s[|s| - 1] == ',';
    } else {
      assert s[..|s| - 1] == p + "," + t[..|t| - 1];
      LastFieldAfter(p, t[..|t| - 1]);
    }
  }

  /** Reading a row's last column back as an integer gives the entry's statistic. */
  lemma RowStatistic(question: string, e: Entry)
    ensures var f := LastField(Row(question, e));
      && f != []
      && (f[0] == '-' ==> AllDigits(f[1..]))
      && (f[0] != '-' ==> AllDigits(f))
      && ParseInt(f) == Statistic(question, e)
  {
    var t := IntToString(Statistic(question, e));
    IntToStringRoundTrip(Statistic(question, e));
    forall k | 0 <= k < |t| ensures t[k] != ',' {
      if k > 0 && t[0] == '-' {
        assert t[k] == t[1..][k - 1];
      }
    }
    LastFieldAfter(Subject(question, e.route), t);
  }

  /** Every entry of the sorted tally states how many counted records carry
      its key, and that number is positive; the entries come in order of the
      statistic, largest first, and smallest first for question 2. */
  lemma ReportedCounts(question: string, recs: seq<Route>, i: nat)
    requires question in {"1", "2", "3"}
    requires i < |SortAll(question, Tally(question, recs))|
    ensures var es := SortAll(question, Tally(question, recs));
      Statistic(question, es[i]) == Occurrences(question, recs, KeyOf(question, es[i].route)) > 0
    ensures var es := SortAll(question, Tally(question, recs));
      i + 1 < |es| ==>
        if question == "2" then Statistic(question, es[i]) <= Statistic(question, es[i + 1])
        else Statistic(question, es[i]) >= Statistic(question, es[i + 1])
  {
    var t := Tally(question, recs);
    var es := SortAll(question, t);
    SortAllSpec(question, t);
    TallySpec(question, recs);
    assert es[i] in multiset(t);
    var j :| 0 <= j < |t| && t[j] == es[i];
    assert HasKey(question, t, KeyOf(question, t[j].route));
  }

  /** `process_file` after the file is read into lines: tally the records,
      sort the tally, write the report. */
  method ProcessFile(lines: seq<string>, question: string, n: int) returns (out: seq<string>)
    requires forall k :: 1 <= k < |lines| ==> LineOk(lines[k])
    ensures out == Report(question, n, SortAll(question, Tally(Counted(question), Records(lines))))
  {
    var list, nodes := Aggregate(lines, question);
    ghost var tally := Entries(nodes);
    var sorted, snodes := SortByFrequency(list, question, nodes);
    assert Entries(snodes) == SortAll(question, tally);
    out := WriteFile(question, n, sorted, snodes);
  }
}
