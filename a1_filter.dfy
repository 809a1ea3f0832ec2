/** The a1 route filter: `--KEY=VALUE` arguments read into `struct input`,
    each CSV line split into the fixed `char[100]` columns of
    `struct line_data`, and the report of the matching routes. */
module RouteFilter {
  import opened Text

  const BufSize := 100

  /** A `char[100]` member of `struct line_data`. */
  type Buffer = b: seq<char> | |b| == BufSize witness seq(BufSize, _ => '\0')

  /** The C string a buffer holds: everything before the first NUL. */
  function CStr(b: seq<char>): (s: string)
    ensures |s| <= |b| && s == b[..|s|] && '\0' !in s
    ensures |s| < |b| ==> b[|s|] == '\0'
    decreases |b|
  {
    if b == [] || b[0] == '\0' then [] else [b[0]] + CStr(b[1..])
  }

  /** `struct input`: the case chosen from `argc` and the six string arguments. */
  datatype Input = Input(
    inputCase: int, data: string, airline: string,
    srcCity: string, srcCountry: string, destCity: string, destCountry: string)

  /** `struct line_data`: eleven buffers for the columns kept from a line. */
  datatype LineData = LineData(
    airlineName: Buffer, airlineIcaoUniqueCode: Buffer, airlineCountry: Buffer,
    fromAirportName: Buffer, fromAirportCity: Buffer, fromAirportCountry: Buffer,
    fromAirportIcaoUniqueCode: Buffer,
    toAirportName: Buffer, toAirportCity: Buffer, toAirportCountry: Buffer,
    toAirportIcaoUniqueCode: Buffer)

  /** The argument a key of `--KEY=VALUE` names, if any. */
  datatype Key = Data | Airline | SrcCity | SrcCountry | DestCity | DestCountry

  function KeyNamed(entry: string): Option<Key> {
    if entry == "DATA" then Some(Data)
    else if entry == "AIRLINE" then Some(Airline)
    else if entry == "SRC_CITY" then Some(SrcCity)
    else if entry == "SRC_COUNTRY" then Some(SrcCountry)
    else if entry == "DEST_CITY" then Some(DestCity)
    else if entry == "DEST_COUNTRY" then Some(DestCountry)
    else None
  }

  function ArgOf(args: Input, k: Key): string {
    match k
    case Data => args.data
    case Airline => args.airline
    case SrcCity => args.srcCity
    case SrcCountry => args.srcCountry
    case DestCity => args.destCity
    case DestCountry => args.destCountry
  }

  /** `extract_args_helper`: copies `val` into the member `entry` names;
      an entry that names none leaves the arguments as they are. */
  function SetArg(entry: string, val: string, args: Input): (r: Input) {
    match KeyNamed(entry)
    case None => args
    case Some(Data) => args.(data := val)
    case Some(Airline) => args.(airline := val)
    case Some(SrcCity) => args.(srcCity := val)
    case Some(SrcCountry) => args.(srcCountry := val)
    case Some(DestCity) => args.(destCity := val)
    case Some(DestCountry) => args.(destCountry := val)
  }

  /** Exactly the named member changes, to `val`. */
  lemma SetArgSpec(entry: string, val: string, args: Input)
    ensures KeyNamed(entry).Some? ==> ArgOf(SetArg(entry, val, args), KeyNamed(entry).value) == val
    ensures forall k :: Some(k) != KeyNamed(entry) ==> ArgOf(SetArg(entry, val, args), k) == ArgOf(args, k)
    ensures SetArg(entry, val, args).inputCase == args.inputCase
    ensures KeyNamed(entry).None? ==> SetArg(entry, val, args) == args
  {
  }

  /** `sscanf(arg, "--%[^=]=%[^=]", entry, val)`: after a literal `--`,
      `entry` takes the non-empty run up to the first `=` and `val` the
      non-empty run after it up to the next `=`; a conversion that fails
      leaves that variable and the ones after it as they were. */
  function ScanArg(arg: string, entry: string, val: string): (string, string) {
    if |arg| < 2 || arg[..2] != "--" then (entry, val)
    else
      var rest := arg[2..];
      var k := IndexOf(rest, '=');
      if k == 0 then (entry, val)
      else if k == |rest| then (rest[..k], val)
      else
        var tail := rest[k + 1..];
        var m := IndexOf(tail, '=');
        if m == 0 then (rest[..k], val) else (rest[..k], tail[..m])
  }

  /** An argument written as `--KEY=VALUE` scans back to its key and value. */
  lemma ScanArgRoundTrip(key: string, value: string, entry: string, val: string)
    requires key != [] && value != [] && '=' !in key && '=' !in value
    ensures ScanArg("--" + key + "=" + value, entry, val) == (key, value)
  {
    var arg := "--" + key + "=" + value;
    assert arg[..2] == "--";
    var rest := arg[2..];
    assert rest == key + "=" + value;
    IndexOfAt(rest, '=', |key|);
    assert rest[..|key|] == key;
    var tail := rest[|key| + 1..];
    assert tail == value;
    IndexOfAt(tail, '=', |tail|);
    assert tail[..|tail|] == value;
  }

  /** The arguments after reading `argv[1..i]`, with the scan variables they leave behind. */
  function ArgsRead(argv: seq<string>, i: nat, args: Input, entry: string, val: string): (Input, string, string)
    requires 1 <= i <= |argv| || i == 0
    decreases i
  {
    if i <= 1 then (args, entry, val)
    else
      var (a, e, v) := ArgsRead(argv, i - 1, args, entry, val);
      var (e', v') := ScanArg(argv[i - 1], e, v);
      (SetArg(e', v', a), e', v')
  }

  /** `extract_args`: every argument after the program name is scanned and
      applied in order. `entry` and `val` start as whatever the stack held. */
  method ExtractArgs(argv: seq<string>, args: Input, entry0: string, val0: string) returns (r: Input)
    ensures r == ArgsRead(argv, |argv|, args, entry0, val0).0
  {
    r := args;
    if |argv| == 0 {
      return;
    }
    var entry, val := entry0, val0;
    var i := 1;
    while i < |argv|
      invariant 1 <= i <= |argv|
      invariant (r, entry, val) == ArgsRead(argv, i, args, entry0, val0)
    {
      var scanned := ScanArg(argv[i], entry, val);
      entry, val := scanned.0, scanned.1;
      r := SetArg(entry, val, r);
      i := i + 1;
    }
  }

  /** `--KEY=VALUE` with a non-empty key and value and no `=` in the value. */
  predicate WellFormedArg(a: string) {
    var (key, value) := ScanArg(a, "", "");
    key != [] && value != [] && '=' !in key && '=' !in value && a == "--" + key + "=" + value
  }

  /** The member an argument names. */
  function ArgKey(a: string): Option<Key> {
    KeyNamed(ScanArg(a, "", "").0)
  }

  /** The value an argument gives. */
  function ArgValue(a: string): string {
    ScanArg(a, "", "").1
  }

  /** The value of the last of `argv[1..i]` naming `k`, or `other` when none does. */
  function LastValue(argv: seq<string>, i: nat, k: Key, other: string): string
    requires i <= |argv|
    decreases i
  {
    if i <= 1 then other
    else if ArgKey(argv[i - 1]) == Some(k) then ArgValue(argv[i - 1])
    else LastValue(argv, i - 1, k, other)
  }

  /** With every argument written `--KEY=VALUE`, each member holds the value
      of the last argument naming it, or its old value when none does. */
  lemma {:induction false} ArgsReadLast(argv: seq<string>, i: nat, args: Input, entry: string, val: string, k: Key)
    requires 1 <= i <= |argv|
    requires forall j :: 1 <= j < i ==> WellFormedArg(argv[j])
    ensures ArgOf(ArgsRead(argv, i, args, entry, val).0, k) == LastValue(argv, i, k, ArgOf(args, k))
    decreases i
  {
    if i > 1 {
      ArgsReadLast(argv, i - 1, args, entry, val, k);
      var a := argv[i - 1];
      var (key, value) := ScanArg(a, "", "");
      var (x, e, v) := ArgsRead(argv, i - 1, args, entry, val);
      ScanArgRoundTrip(key, value, e, v);
      SetArgSpec(key, value, x);
    }
  }

  /** `main`'s switch on `argc`: four, five and six arguments select cases 1, 2 and 3. */
  function CaseOf(argc: int, current: int): (c: int)
    ensures 4 <= argc <= 6 ==> c == argc - 3
    ensures !(4 <= argc <= 6) ==> c == current
  {
    match argc
    case 4 => 1
    case 5 => 2
    case 6 => 3
    case _ => current
  }

  /** The columns `splice_copy_helper` writes: 0 to 11 except 7. */
  predicate StoredColumn(c: int) {
    0 <= c <= 11 && c != 7
  }

  /** The buffer of a written column. */
  function Column(d: LineData, c: int): Buffer
    requires StoredColumn(c)
  {
    if c == 0 then d.airlineName
    else if c == 1 then d.airlineIcaoUniqueCode
    else if c == 2 then d.airlineCountry
    else if c == 3 then d.fromAirportName
    else if c == 4 then d.fromAirportCity
    else if c == 5 then d.fromAirportCountry
    else if c == 6 then d.fromAirportIcaoUniqueCode
    else if c == 8 then d.toAirportName
    else if c == 9 then d.toAirportCity
    else if c == 10 then d.toAirportCountry
    else d.toAirportIcaoUniqueCode
  }

  function WithColumn(d: LineData, c: int, b: Buffer): LineData
    requires StoredColumn(c)
  {
    if c == 0 then d.(airlineName := b)
    else if c == 1 then d.(airlineIcaoUniqueCode := b)
    else if c == 2 then d.(airlineCountry := b)
    else if c == 3 then d.(fromAirportName := b)
    else if c == 4 then d.(fromAirportCity := b)
    else if c == 5 then d.(fromAirportCountry := b)
    else if c == 6 then d.(fromAirportIcaoUniqueCode := b)
    else if c == 8 then d.(toAirportName := b)
    else if c == 9 then d.(toAirportCity := b)
    else if c == 10 then d.(toAirportCountry := b)
    else d.(toAirportIcaoUniqueCode := b)
  }

  /** Replacing a column's buffer changes that column and no other; a second replacement overrides the first. */
  lemma ColumnWith(d: LineData, c: int, b: Buffer)
    requires StoredColumn(c)
    ensures forall c' :: StoredColumn(c') ==> Column(WithColumn(d, c, b), c') == if c' == c then b else Column(d, c')
    ensures forall b' :: WithColumn(WithColumn(d, c, b), c, b') == WithColumn(d, c, b')
  {
  }

  /** `splice_copy_helper`: writes one character into a column's buffer;
      columns 7, 12 and above leave the line data as it is. */
  function PutChar(d: LineData, index: int, column: int, val: char): LineData
    requires StoredColumn(column) ==> 0 <= index < BufSize
  {
    if StoredColumn(column) then WithColumn(d, column, Column(d, column)[index := val]) else d
  }

  /** A buffer holding `t` followed by its terminating NUL; the bytes after it are the old ones. */
  function Spliced(b: Buffer, t: string): Buffer
    requires |t| < BufSize
  {
    t + ['\0'] + b[|t| + 1..]
  }

  /** A spliced buffer reads back, as a C string, as exactly the text written into it. */
  lemma SplicedCStr(b: Buffer, t: string)
    requires |t| < BufSize && '\0' !in t
    ensures CStr(Spliced(b, t)) == t
  {
    var s := Spliced(b, t);
    var r := CStr(s);
    assert s[..|t|] == t && s[|t|] == '\0';
  }

  /** A column's buffer with its first `|t|` characters replaced by `t`. */
  function Overwritten(d: LineData, column: int, t: string): LineData
    requires StoredColumn(column) ==> |t| <= BufSize
  {
    if StoredColumn(column) then WithColumn(d, column, t + Column(d, column)[|t|..]) else d
  }

  lemma OverwrittenNothing(d: LineData, column: int)
    ensures Overwritten(d, column, []) == d
  {
    if StoredColumn(column) {
      assert [] + Column(d, column)[0..] == Column(d, column);
    }
  }

  /** What `splice_copy` leaves: the column spliced with `t`; other columns as they were. */
  function Store(d: LineData, column: int, t: string): LineData
    requires StoredColumn(column) ==> |t| < BufSize
  {
    if StoredColumn(column) then WithColumn(d, column, Spliced(Column(d, column), t)) else d
  }

  lemma OverwriteStep(d: LineData, column: int, t: string, ch: char)
    requires StoredColumn(column) ==> |t| < BufSize
    ensures PutChar(Overwritten(d, column, t), |t|, column, ch) == Overwritten(d, column, t + [ch])
  {
    if StoredColumn(column) {
      var b := Column(d, column);
      ColumnWith(d, column, t + b[|t|..]);
      assert (t + b[|t|..])[|t| := ch] == (t + [ch]) + b[|t| + 1..];
    }
  }

  lemma OverwriteEnd(d: LineData, column: int, t: string)
    requires StoredColumn(column) ==> |t| < BufSize
    ensures PutChar(Overwritten(d, column, t), |t|, column, '\0') == Store(d, column, t)
  {
    if StoredColumn(column) {
      var b := Column(d, column);
      ColumnWith(d, column, t + b[|t|..]);
      assert (t + b[|t|..])[|t| := '\0'] == t + ['\0'] + b[|t| + 1..];
    }
  }

  /** `s` without its commas. */
  function RemoveCommas(s: string): (r: string)
    ensures ',' !in r && |r| <= |s|
    decreases |s|
  {
    if s == [] then []
    else RemoveCommas(s[..|s| - 1]) + (if s[|s| - 1] == ',' then [] else [s[|s| - 1]])
  }

  /** Text without commas passes through unchanged. */
  lemma {:induction false} RemoveCommasClean(s: string)
    requires ',' !in s
    ensures RemoveCommas(s) == s
    decreases |s|
  {
    if s != [] {
      RemoveCommasClean(s[..|s| - 1]);
      assert s == s[..|s| - 1] + [s[|s| - 1]];
    }
  }

  /** What `splice_copy` copies from `line[start..end)`. */
  function Copied(line: string, start: int, end: int): string
    requires 0 <= start && (start < end ==> end <= |line|)
  {
    if start < end then RemoveCommas(line[start..end]) else []
  }

  /** One more character of the range adds it, unless it is a comma. */
  lemma CopiedStep(line: string, start: int, s: int)
    requires 0 <= start <= s < |line|
    ensures Copied(line, start, s + 1) == Copied(line, start, s) + (if line[s] == ',' then [] else [line[s]])
  {
    assert line[start..s + 1][..s - start] == line[start..s];
  }

  /** The copy of a longer range is at least as long. */
  lemma {:induction false} CopiedGrows(line: string, start: int, s: int, end: int)
    requires 0 <= start <= s <= end <= |line|
    ensures |Copied(line, start, s)| <= |Copied(line, start, end)|
    decreases end - s
  {
    if s < end {
      CopiedStep(line, start, s);
      CopiedGrows(line, start, s + 1, end);
    }
  }

  /** One turn of the `splice_copy` loop: a character other than a comma is
      written at the next index of the column, a comma is skipped. */
  lemma CopyStep(line: string, d: LineData, start: int, s: int, end: int, column: int)
    requires 0 <= start <= s < end <= |line|
    requires StoredColumn(column) ==> |Copied(line, start, end)| < BufSize
    ensures |Copied(line, start, s + 1)| <= |Copied(line, start, end)|
    ensures line[s] == ',' ==> Copied(line, start, s + 1) == Copied(line, start, s)
    ensures line[s] != ',' ==>
      |Copied(line, start, s + 1)| == |Copied(line, start, s)| + 1 &&
      PutChar(Overwritten(d, column, Copied(line, start, s)), |Copied(line, start, s)|, column, line[s])
        == Overwritten(d, column, Copied(line, start, s + 1))
  {
    var t := Copied(line, start, s);
    CopiedStep(line, start, s);
    CopiedGrows(line, start, s + 1, end);
    if line[s] != ',' {
      OverwriteStep(d, column, t, line[s]);
    }
  }

  /** `splice_copy`: the characters of `line[start..end)` other than commas
      go into the column one by one, then a terminating NUL. */
  method SpliceCopy(line: string, d: LineData, start: int, end: int, column: int) returns (r: LineData)
    requires 0 <= start && (start < end ==> end <= |line|)
    requires StoredColumn(column) ==> |Copied(line, start, end)| < BufSize
    ensures r == Store(d, column, Copied(line, start, end))
  {
    var charIndex := 0;
    var s := start;
    r := d;
    OverwrittenNothing(d, column);
    while s < end
      invariant start <= s && (if start < end then s <= end else s == start)
      invariant charIndex == |Copied(line, start, s)|
      invariant StoredColumn(column) ==> charIndex <= |Copied(line, start, end)|
      invariant r == Overwritten(d, column, Copied(line, start, s))
    {
      CopyStep(line, d, start, s, end, column);
      if line[s] != ',' {
        r := PutChar(r, charIndex, column, line[s]);
        charIndex := charIndex + 1;
      }
      s := s + 1;
    }
    assert Copied(line, start, s) == Copied(line, start, end);
    OverwriteEnd(d, column, Copied(line, start, end));
    r := PutChar(r, charIndex, column, '\0');
  }

  /** What `extract_line_data` ends a field on, besides the terminating NUL. */
  predicate IsDelim(c: char) {
    c == ',' || c == '\n'
  }

  /** The text after the last delimiter of `s`: the field still open. */
  function Pending(s: string): (p: string)
    ensures |p| <= |s|
    decreases |s|
  {
    if s == [] || IsDelim(s[|s| - 1]) then [] else Pending(s[..|s| - 1]) + [s[|s| - 1]]
  }

  /** The open field is the delimiter-free tail of `s`. */
  lemma {:induction false} PendingSpec(s: string)
    ensures Pending(s) == s[|s| - |Pending(s)|..]
    ensures forall k :: 0 <= k < |Pending(s)| ==> !IsDelim(Pending(s)[k])
    decreases |s|
  {
    if s != [] && !IsDelim(s[|s| - 1]) {
      var q := s[..|s| - 1];
      PendingSpec(q);
      var k := |q| - |Pending(q)|;
      assert Pending(s) == Pending(q) + [s[|q|]];
      assert s[k..] == q[k..] + [s[|q|]];
    }
  }

  /** The fields of `s` that a delimiter has closed, in order. */
  function Closed(s: string): seq<string>
    decreases |s|
  {
    if s == [] then []
    else if IsDelim(s[|s| - 1]) then Closed(s[..|s| - 1]) + [Pending(s[..|s| - 1])]
    else Closed(s[..|s| - 1])
  }

  /** The fields of a line: every closed field, then the one the terminating NUL closes. */
  function Fields(s: string): seq<string> {
    Closed(s) + [Pending(s)]
  }

  /** No field holds a delimiter. */
  lemma {:induction false} ClosedClean(s: string)
    ensures forall f, k :: f in Closed(s) && 0 <= k < |f| ==> !IsDelim(f[k])
    decreases |s|
  {
    if s != [] {
      ClosedClean(s[..|s| - 1]);
      PendingSpec(s[..|s| - 1]);
    }
  }

  /** The fields with a comma between each two. */
  function Join(fs: seq<string>): string
    requires fs != []
    decreases |fs|
  {
    if |fs| == 1 then fs[0] else Join(fs[..|fs| - 1]) + "," + fs[|fs| - 1]
  }

  lemma JoinSnoc(init: seq<string>, x: string)
    ensures init == [] ==> Join(init + [x]) == x
    ensures init != [] ==> Join(init + [x]) == Join(init) + "," + x
  {
    assert (init + [x])[..|init|] == init;
  }

  /** A character added to the last field is added to the end of the joined text. */
  lemma JoinLast(init: seq<string>, last: string, c: char)
    ensures Join(init + [last + [c]]) == Join(init + [last]) + [c]
  {
    JoinSnoc(init, last + [c]);
    JoinSnoc(init, last);
    if init != [] {
      var a := Join(init);
      assert a + "," + (last + [c]) == (a + "," + last) + [c];
    }
  }

  /** Splitting a line without newlines and joining its fields with commas gives the line back. */
  lemma {:induction false} FieldsJoin(s: string)
    requires '\n' !in s
    ensures Join(Fields(s)) == s
    decreases |s|
  {
    if s != [] {
      var p, c := s[..|s| - 1], s[|s| - 1];
      assert s == p + [c];
      FieldsJoin(p);
      if IsDelim(c) {
        var fs := Fields(s);
        assert fs == Fields(p) + [[]];
        assert fs[..|fs| - 1] == Fields(p);
      } else {
        JoinLast(Closed(p), Pending(p), c);
      }
    }
  }

  /** The fields closed within a prefix are the first fields of the whole line. */
  lemma {:induction false} ClosedPrefix(s: string, j: nat)
    requires j <= |s|
    ensures |Closed(s[..j])| <= |Closed(s)|
    ensures forall k :: 0 <= k < |Closed(s[..j])| ==> Closed(s[..j])[k] == Closed(s)[k]
    decreases |s| - j
  {
    if j < |s| {
      var p := s[..|s| - 1];
      assert p[..j] == s[..j];
      ClosedPrefix(p, j);
    } else {
      assert s[..j] == s;
    }
  }

  /** A delimiter at `i` closes the open field. */
  lemma DelimStep(line: string, i: nat)
    requires i < |line| && IsDelim(line[i])
    ensures Closed(line[..i + 1]) == Closed(line[..i]) + [Pending(line[..i])]
    ensures Pending(line[..i + 1]) == []
  {
    assert line[..i + 1][..i] == line[..i];
  }

  /** Any other character extends the open field. */
  lemma PlainStep(line: string, i: nat)
    requires i < |line| && !IsDelim(line[i])
    ensures Closed(line[..i + 1]) == Closed(line[..i])
    ensures Pending(line[..i + 1]) == Pending(line[..i]) + [line[i]]
  {
    assert line[..i + 1][..i] == line[..i];
  }

  /** Every field that lands in a written column fits its buffer with its NUL. */
  predicate Fits(fs: seq<string>) {
    forall c :: 0 <= c < |fs| && StoredColumn(c) ==> |fs[c]| < BufSize
  }

  /** The line data after field `k` of `fs` is stored into column `k`, for every `k`. */
  function StoreFields(d: LineData, fs: seq<string>): LineData
    requires Fits(fs)
    decreases |fs|
  {
    if fs == [] then d else Store(StoreFields(d, fs[..|fs| - 1]), |fs| - 1, fs[|fs| - 1])
  }

  lemma StoreFieldsSnoc(d: LineData, fs: seq<string>, f: string)
    requires Fits(fs + [f])
    ensures Fits(fs) && StoreFields(d, fs + [f]) == Store(StoreFields(d, fs), |fs|, f)
  {
    assert (fs + [f])[..|fs|] == fs;
  }

  /** Column `k` holds field `k` as a C string; a column past the last field keeps its buffer. */
  lemma {:induction false} StoreFieldsSpec(d: LineData, fs: seq<string>, c: int)
    requires Fits(fs) && StoredColumn(c)
    requires forall k :: 0 <= k < |fs| ==> '\0' !in fs[k]
    ensures c < |fs| ==> CStr(Column(StoreFields(d, fs), c)) == fs[c]
    ensures c >= |fs| ==> Column(StoreFields(d, fs), c) == Column(d, c)
    decreases |fs|
  {
    if fs != [] {
      var n := |fs| - 1;
      var prev := StoreFields(d, fs[..n]);
      StoreFieldsSpec(d, fs[..n], c);
      StoreColumn(prev, n, fs[n], c);
    }
  }

  /** Storing field `n` sets column `n` to it and leaves every other column as it was. */
  lemma StoreColumn(prev: LineData, n: int, f: string, c: int)
    requires StoredColumn(c) && (StoredColumn(n) ==> |f| < BufSize) && '\0' !in f
    ensures c == n ==> CStr(Column(Store(prev, n, f), c)) == f
    ensures c != n ==> Column(Store(prev, n, f), c) == Column(prev, c)
  {
    if StoredColumn(n) {
      ColumnWith(prev, n, Spliced(Column(prev, n), f));
      if c == n {
        SplicedCStr(Column(prev, n), f);
      }
    }
  }

  /** `extract_line_data`: scans the line and its terminating NUL; each
      delimiter or the NUL hands the field since the previous one to
      `splice_copy` for the next column. */
  method ExtractLineData(line: string, d: LineData) returns (r: LineData)
    requires '\0' !in line && Fits(Fields(line))
    ensures r == StoreFields(d, Fields(line))
  {
    var column := 0;
    var start := 0;
    var end := 0;
    r := d;
    var i := 0;
    while i <= |line|
      invariant 0 <= i <= |line| + 1 && end == i
      invariant i <= |line| ==> column == |Closed(line[..i])| && start == i - |Pending(line[..i])|
      invariant i <= |line| ==> Fits(Closed(line[..i])) && r == StoreFields(d, Closed(line[..i]))
      invariant i == |line| + 1 ==> r == StoreFields(d, Fields(line))
    {
      var ch := if i < |line| then line[i] else '\0';
      if ch != ',' && ch != '\0' && ch != '\n' {
        PlainStep(line, i);
        end := end + 1;
      } else {
        r := CloseField(line, d, r, i, start, column);
        end := end + 1;
        start := end;
        column := column + 1;
      }
      i := i + 1;
    }
  }

  /** One `splice_copy` call of `extract_line_data`, at the delimiter or NUL at `i`. */
  method CloseField(line: string, ghost d: LineData, r: LineData, i: nat, start: int, column: int) returns (r': LineData)
    requires '\0' !in line && Fits(Fields(line)) && i <= |line|
    requires i < |line| ==> IsDelim(line[i])
    requires column == |Closed(line[..i])| && start == i - |Pending(line[..i])|
    requires Fits(Closed(line[..i])) && r == StoreFields(d, Closed(line[..i]))
    ensures i < |line| ==> |Closed(line[..i + 1])| == column + 1 && Pending(line[..i + 1]) == []
    ensures i < |line| ==> Fits(Closed(line[..i + 1])) && r' == StoreFields(d, Closed(line[..i + 1]))
    ensures i == |line| ==> r' == StoreFields(d, Fields(line))
  {
    CopiedPending(line, i);
    FieldClosed(line, i);
    StoreFieldsSnoc(d, Closed(line[..i]), Pending(line[..i]));
    r' := SpliceCopy(line, r, start, i, column);
  }

  /** What `splice_copy` copies at a delimiter is the open field. */
  lemma CopiedPending(line: string, i: nat)
    requires i <= |line|
    ensures Copied(line, i - |Pending(line[..i])|, i) == Pending(line[..i])
  {
    var s := line[..i];
    var p := Pending(s);
    var start := i - |p|;
    PendingSpec(s);
    assert s[start..] == line[start..i];
    if start < i {
      assert ',' !in p by {
        assert forall k :: 0 <= k < |p| ==> !IsDelim(p[k]);
      }
      RemoveCommasClean(p);
    }
  }

  /** Closing the open field at a delimiter, or at the NUL, adds it to the fields seen, which still fit. */
  lemma FieldClosed(line: string, i: nat)
    requires i <= |line| && (i < |line| ==> IsDelim(line[i])) && Fits(Fields(line))
    ensures i < |line| ==> Closed(line[..i + 1]) == Closed(line[..i]) + [Pending(line[..i])] && Pending(line[..i + 1]) == []
    ensures i == |line| ==> Fields(line) == Closed(line[..i]) + [Pending(line[..i])]
    ensures Fits(Closed(line[..i]) + [Pending(line[..i])])
  {
    var fs := Closed(line[..i]) + [Pending(line[..i])];
    if i < |line| {
      DelimStep(line, i);
      ClosedPrefix(line, i + 1);
    } else {
      assert line[..i] == line;
    }
    assert forall k :: 0 <= k < |fs| ==> fs[k] == Fields(line)[k];
  }

  /** A character missing from the line is missing from every field. */
  lemma {:induction false} FieldsAvoid(s: string, ch: char)
    requires ch !in s
    ensures forall f :: f in Fields(s) ==> ch !in f
    decreases |s|
  {
    if s != [] {
      var p := s[..|s| - 1];
      assert ch !in p;
      FieldsAvoid(p, ch);
      assert Fields(p)[|Fields(p)| - 1] == Pending(p);
    }
  }

  /** A line `extract_line_data` can take: no NUL inside it, and every
      field that lands in a column fits the column's buffer. */
  predicate LineFits(line: string) {
    '\0' !in line && Fits(Fields(line))
  }

  /** After a line is read, each column it reaches prints as that field. */
  lemma ColumnIsField(d: LineData, line: string, c: int)
    requires LineFits(line) && StoredColumn(c) && c < |Fields(line)|
    ensures CStr(Column(StoreFields(d, Fields(line)), c)) == Fields(line)[c]
  {
    var fs := Fields(line);
    FieldsAvoid(line, '\0');
    assert forall k :: 0 <= k < |fs| ==> fs[k] in fs;
    StoreFieldsSpec(d, fs, c);
  }

  /** The text `%s` prints for a column. */
  function Printed(d: LineData, c: int): string
    requires StoredColumn(c)
  {
    CStr(Column(d, c))
  }

  /** The `strcmp` tests of `write_file` for each case; any other case matches nothing. */
  predicate Matches(args: Input, d: LineData) {
    match args.inputCase
    case 1 => args.airline == Printed(d, 1) && args.destCountry == Printed(d, 10)
    case 2 => args.srcCountry == Printed(d, 5) && args.destCity == Printed(d, 9) && args.destCountry == Printed(d, 10)
    case 3 =>
      args.srcCity == Printed(d, 4) && args.srcCountry == Printed(d, 5) &&
      args.destCity == Printed(d, 9) && args.destCountry == Printed(d, 10)
    case _ => false
  }

  /** The same tests on the fields of a line. */
  predicate Selects(args: Input, fs: seq<string>)
    requires |fs| >= 12
  {
    match args.inputCase
    case 1 => args.airline == fs[1] && args.destCountry == fs[10]
    case 2 => args.srcCountry == fs[5] && args.destCity == fs[9] && args.destCountry == fs[10]
    case 3 => args.srcCity == fs[4] && args.srcCountry == fs[5] && args.destCity == fs[9] && args.destCountry == fs[10]
    case _ => false
  }

  /** Once a line with all its columns is read, whether it matches depends
      on that line alone, not on what earlier lines left in the buffers. */
  lemma MatchesLine(args: Input, d: LineData, line: string)
    requires LineFits(line) && |Fields(line)| >= 12
    ensures Matches(args, StoreFields(d, Fields(line))) <==> Selects(args, Fields(line))
  {
    var r := StoreFields(d, Fields(line));
    ColumnIsField(d, line, 1);
    ColumnIsField(d, line, 4);
    ColumnIsField(d, line, 5);
    ColumnIsField(d, line, 9);
    ColumnIsField(d, line, 10);
  }

  /** The heading `write_file` prints before the first match. */
  function Header(args: Input, d: LineData): string {
    if args.inputCase == 1 then
      "FLIGHTS TO " + args.destCountry + " BY " + Printed(d, 0) + " (" + args.airline + "):"
    else if args.inputCase == 2 then
      "FLIGHTS FROM " + args.srcCountry + " TO " + args.destCity + ", " + args.destCountry + ":"
    else
      "FLIGHTS FROM " + args.srcCity + ", " + args.srcCountry + " TO " + args.destCity + ", " + args.destCountry + ":"
  }

  /** The line `write_file` prints for a match. */
  function Body(args: Input, d: LineData): string {
    if args.inputCase == 1 then
      "FROM: " + Printed(d, 6) + ", " + Printed(d, 4) + ", " + Printed(d, 5) +
      " TO: " + Printed(d, 8) + " (" + Printed(d, 11) + "), " + Printed(d, 9)
    else if args.inputCase == 2 then
      "AIRLINE: " + Printed(d, 0) + " (" + Printed(d, 1) + ") ORIGIN: " + Printed(d, 3) + " (" + Printed(d, 6) + "), " + Printed(d, 4)
    else
      "AIRLINE: " + Printed(d, 0) + " (" + Printed(d, 1) + ") ROUTE: " + Printed(d, 6) + "-" + Printed(d, 11)
  }

  /** `write_file`: a matching line adds its body, preceded by the heading
      while nothing has been written yet; any other line adds nothing. */
  function WriteFile(out: seq<string>, args: Input, d: LineData): seq<string> {
    if !Matches(args, d) then out
    else if out == [] then [Header(args, d), Body(args, d)]
    else out + [Body(args, d)]
  }

  /** The line data after the first `i` lines: each line's fields stored over the previous data. */
  function DataAfter(lines: seq<string>, i: nat, d0: LineData): LineData
    requires i <= |lines| && forall j :: 0 <= j < |lines| ==> LineFits(lines[j])
  {
    if i == 0 then d0 else StoreFields(DataAfter(lines, i - 1, d0), Fields(lines[i - 1]))
  }

  /** The line data after each of the first `i` lines, in order. */
  function Datas(lines: seq<string>, i: nat, d0: LineData): (ds: seq<LineData>)
    requires i <= |lines| && forall j :: 0 <= j < |lines| ==> LineFits(lines[j])
    ensures |ds| == i
  {
    if i == 0 then [] else Datas(lines, i - 1, d0) + [DataAfter(lines, i, d0)]
  }

  /** The output after `write_file` has seen each line data of `ds`. */
  function Written(args: Input, ds: seq<LineData>): seq<string>
    decreases |ds|
  {
    if ds == [] then [] else WriteFile(Written(args, ds[..|ds| - 1]), args, ds[|ds| - 1])
  }

  lemma WrittenSnoc(args: Input, ds: seq<LineData>, d: LineData)
    ensures Written(args, ds + [d]) == WriteFile(Written(args, ds), args, d)
  {
    assert (ds + [d])[..|ds|] == ds;
  }

  /** The whole output file, with the notice written when nothing matched. */
  function Output(args: Input, lines: seq<string>, d0: LineData): seq<string>
    requires forall j :: 0 <= j < |lines| ==> LineFits(lines[j])
  {
    var w := Written(args, Datas(lines, |lines|, d0));
    if w == [] then ["NO RESULTS FOUND."] else w
  }

  /** The line data of `ds` that match, in order. */
  function Matched(args: Input, ds: seq<LineData>): seq<LineData>
    decreases |ds|
  {
    if ds == [] then []
    else
      var m := Matched(args, ds[..|ds| - 1]);
      if Matches(args, ds[|ds| - 1]) then m + [ds[|ds| - 1]] else m
  }

  function Bodies(args: Input, ms: seq<LineData>): seq<string>
    decreases |ms|
  {
    if ms == [] then [] else Bodies(args, ms[..|ms| - 1]) + [Body(args, ms[|ms| - 1])]
  }

  lemma BodiesSnoc(args: Input, ms: seq<LineData>, m: LineData)
    ensures Bodies(args, ms + [m]) == Bodies(args, ms) + [Body(args, m)]
  {
    assert (ms + [m])[..|ms|] == ms;
  }

  /** The output that the heading of the first match and one body per match make. */
  function Shaped(args: Input, ms: seq<LineData>): seq<string> {
    if ms == [] then [] else [Header(args, ms[0])] + Bodies(args, ms)
  }

  /** `write_file` on one more line keeps the output shaped after the matches so far. */
  lemma ShapedStep(args: Input, ms: seq<LineData>, d: LineData)
    ensures WriteFile(Shaped(args, ms), args, d) == Shaped(args, if Matches(args, d) then ms + [d] else ms)
  {
    if Matches(args, d) {
      BodiesSnoc(args, ms, d);
      if ms == [] {
        assert Bodies(args, [] + [d]) == [Body(args, d)];
      } else {
        assert (ms + [d])[0] == ms[0];
        assert Shaped(args, ms) != [];
      }
    }
  }

  /** The output is empty until the first match; from then on it is the
      heading of the first match followed by one body per match. */
  lemma {:induction false} WrittenShape(args: Input, ds: seq<LineData>)
    ensures Written(args, ds) == Shaped(args, Matched(args, ds))
    decreases |ds|
  {
    if ds != [] {
      var init, d := ds[..|ds| - 1], ds[|ds| - 1];
      WrittenShape(args, init);
      ShapedStep(args, Matched(args, init), d);
    }
  }

  /** The file has one line per match plus one: the heading, or the notice when nothing matched. */
  lemma OutputShape(args: Input, lines: seq<string>, d0: LineData)
    requires forall j :: 0 <= j < |lines| ==> LineFits(lines[j])
    ensures var ms := Matched(args, Datas(lines, |lines|, d0));
      |Output(args, lines, d0)| == |ms| + 1 &&
      (Output(args, lines, d0) == ["NO RESULTS FOUND."] <==> ms == [])
  {
    var ms := Matched(args, Datas(lines, |lines|, d0));
    WrittenShape(args, Datas(lines, |lines|, d0));
    BodiesLength(args, ms);
    if ms != [] {
      assert Output(args, lines, d0)[0][0] == 'F';
    }
  }

  lemma {:induction false} BodiesLength(args: Input, ms: seq<LineData>)
    ensures |Bodies(args, ms)| == |ms|
    decreases |ms|
  {
    if ms != [] {
      BodiesLength(args, ms[..|ms| - 1]);
    }
  }

  /** `process_file`: every line of the input is split into the line data
      kept from the previous one and handed to `write_file`; an empty output
      gets the notice. A missing input file reads as no lines. */
  method ProcessFile(args: Input, lines: seq<string>, d0: LineData) returns (out: seq<string>)
    requires forall j :: 0 <= j < |lines| ==> LineFits(lines[j])
    ensures out == Output(args, lines, d0)
  {
    out := [];
    var d := d0;
    var i := 0;
    while i < |lines|
      invariant i <= |lines| && d == DataAfter(lines, i, d0) && out == Written(args, Datas(lines, i, d0))
    {
      d := ExtractLineData(lines[i], d);
      WrittenSnoc(args, Datas(lines, i, d0), d);
      out := WriteFile(out, args, d);
      i := i + 1;
    }
    if out == [] {
      out := ["NO RESULTS FOUND."];
    }
  }

  /** The program: arguments read, the case chosen from `argc`, the file processed. */
  method Run(argv: seq<string>, lines: seq<string>, args0: Input, entry0: string, val0: string, d0: LineData)
    returns (out: seq<string>)
    requires forall j :: 0 <= j < |lines| ==> LineFits(lines[j])
    ensures var a := ArgsRead(argv, |argv|, args0, entry0, val0).0;
      out == Output(a.(inputCase := CaseOf(|argv|, a.inputCase)), lines, d0)
  {
    var args := ExtractArgs(argv, args0, entry0, val0);
    args := args.(inputCase := CaseOf(|argv|, args.inputCase));
    out := ProcessFile(args, lines, d0);
  }
}
