/**
 The await-version header: the client remembers the newest version of every aggregate it wrote
 and sends them all back; the server turns the header into the versions to wait for.
 */
module Header {
  import opened Text
  import opened Versions
  import opened Wrappers

  const U64_MAX: nat := 0xffff_ffff_ffff_ffff

  type Id = nat

  /** How ids are printed and parsed. The source uses UUIDs. */
  datatype Codec = Codec(show: Id -> string, parse: string -> Option<Id>)

  /** What the server can read as text: the visible characters of ASCII, the space and the tab. */
  predicate Printable(s: string) {
    forall i :: 0 <= i < |s| ==> ' ' <= s[i] <= '~' || s[i] == '\t'
  }

  /** Codes 32 to 126, and 9. */
  lemma VisibleAscii(ch: char)
    ensures Printable([ch]) <==> 32 <= ch as int <= 126 || ch as int == 9
  {
    assert [ch][0] == ch;
  }

  /** Parsing undoes printing, and a printed id is plain text without a comma. */
  ghost predicate Sound(c: Codec) {
    forall id: Id :: c.parse(c.show(id)) == Some(id) && ',' !in c.show(id) && Printable(c.show(id))
  }

  // ---------------------------------------------------------------- the shared spelling

  datatype Versioned = Versioned(aggregate: string, version: int)

  datatype Aggregate = Aggregate(table: string, id: Id)

  function AggregateId(c: Codec, table: string, id: Id): string {
    table + [':'] + c.show(id)
  }

  function ShowInt(v: int): string {
    if v < 0 then ['-'] + Show(-v) else Show(v)
  }

  function FormatVersion(aggregate: string, version: int): string {
    aggregate + ['@'] + ShowInt(version)
  }

  /** Split at the last `@`; the version is parsed unsigned and must fit the signed type. */
  function ParseVersion(s: string): Option<Versioned> {
    var at := LastIndex(s, '@');
    if at < 0 then None
    else
      match ParseUnsigned(s[at + 1..], U64_MAX)
      case None => None
      case Some(n) => if n > I64_MAX then None else Some(Versioned(s[..at], n))
  }

  /** Split at the first `:`. */
  function SplitAggregate(c: Codec, aggregate: string): Option<Aggregate> {
    var colon := FirstIndex(aggregate, ':');
    if colon < 0 then None
    else
      match c.parse(aggregate[colon + 1..])
      case None => None
      case Some(id) => Some(Aggregate(aggregate[..colon], id))
  }

  lemma VersionParses(aggregate: string, version: nat)
    ensures ParseVersion(aggregate + ['@'] + Show(version)) == if version > I64_MAX then None else Some(Versioned(aggregate, version))
  {
    ShowValue(version);
    assert Show(version)[0] != '+';
    LastIndexIs(aggregate, '@', Show(version));
  }

  /** Every signed version prints; exactly the ones that are not negative parse back. */
  lemma VersionRoundTrip(aggregate: string, version: int)
    requires I64_MIN <= version <= I64_MAX
    ensures ParseVersion(FormatVersion(aggregate, version)) == Some(Versioned(aggregate, version)) <==> version >= 0
    ensures version < 0 ==> ParseVersion(FormatVersion(aggregate, version)) == None
  {
    if version >= 0 {
      VersionParses(aggregate, version);
    } else {
      var shown := ShowInt(version);
      assert !IsDigit(shown[0]) && shown[0] != '+';
      LastIndexIs(aggregate, '@', shown);
    }
  }

  /** A table and an id come back from their spelling exactly when the table holds no colon. */
  lemma AggregateRoundTrip(c: Codec, table: string, id: Id)
    requires Sound(c)
    ensures SplitAggregate(c, AggregateId(c, table, id)) == Some(Aggregate(table, id)) <==> ':' !in table
  {
    if ':' !in table {
      FirstIndexIs(table, ':', c.show(id));
    } else {
      var spelled := AggregateId(c, table, id);
      var colon := FirstIndex(spelled, ':');
      assert ':' !in spelled[..colon];
    }
  }

  // ---------------------------------------------------------------- the server half

  datatype Wait = Wait(table: string, id: Id, version: int)

  predicate IsSpace(ch: char) {
    ch == ' ' || ch == '\t' || ch == '\n' || ch == '\r'
  }

  function Trim(s: string): string {
    if s == [] then s
    else if IsSpace(s[0]) then Trim(s[1..])
    else if IsSpace(s[|s| - 1]) then Trim(s[..|s| - 1])
    else s
  }

  function ParseEntry(c: Codec, entry: string): Option<Wait> {
    match ParseVersion(Trim(entry))
    case None => None
    case Some(v) =>
      match SplitAggregate(c, v.aggregate)
      case None => None
      case Some(a) => Some(Wait(a.table, a.id, v.version))
  }

  /** An entry's text, spelled out: a table without a colon, an id that parses, and an unsigned number
      that fits. */
  predicate Spells(c: Codec, text: string, w: Wait, id: string, number: string) {
    && text == w.table + [':'] + id + ['@'] + number && ':' !in w.table && '@' !in number
    && c.parse(id) == Some(w.id) && ParseUnsigned(number, U64_MAX) == Some(w.version) && w.version <= I64_MAX
  }

  /** What the server makes of an entry, white space around it or not, is what it spells. */
  lemma SpelledParses(c: Codec, entry: string, w: Wait, id: string, number: string)
    requires Spells(c, Trim(entry), w, id, number)
    ensures ParseEntry(c, entry) == Some(w)
  {
    VersionRead(w.table + [':'] + id, number, w.version);
    AggregateRead(c, w.table, id, w.id);
  }

  lemma VersionRead(aggregate: string, number: string, version: int)
    requires '@' !in number && ParseUnsigned(number, U64_MAX) == Some(version) && version <= I64_MAX
    ensures ParseVersion(aggregate + ['@'] + number) == Some(Versioned(aggregate, version))
  {
    LastIndexIs(aggregate, '@', number);
  }

  lemma AggregateRead(c: Codec, table: string, id: string, found: Id)
    requires ':' !in table && c.parse(id) == Some(found)
    ensures SplitAggregate(c, table + [':'] + id) == Some(Aggregate(table, found))
  {
    FirstIndexIs(table, ':', id);
  }

  lemma VersionSpells(text: string) returns (number: string)
    requires ParseVersion(text).Some?
    ensures text == ParseVersion(text).value.aggregate + ['@'] + number && '@' !in number
    ensures ParseUnsigned(number, U64_MAX) == Some(ParseVersion(text).value.version) && ParseVersion(text).value.version <= I64_MAX
  {
    var at := LastIndex(text, '@');
    number := text[at + 1..];
    assert text == text[..at] + ['@'] + number;
  }

  lemma AggregateSpells(c: Codec, aggregate: string) returns (id: string)
    requires SplitAggregate(c, aggregate).Some?
    ensures var a := SplitAggregate(c, aggregate).value;
      aggregate == a.table + [':'] + id && ':' !in a.table && c.parse(id) == Some(a.id)
  {
    var colon := FirstIndex(aggregate, ':');
    id := aggregate[colon + 1..];
    assert aggregate == aggregate[..colon] + [':'] + id;
  }

  /** And it makes something of no other. */
  lemma ParsedSpells(c: Codec, entry: string, w: Wait) returns (id: string, number: string)
    requires ParseEntry(c, entry) == Some(w)
    ensures Spells(c, Trim(entry), w, id, number)
  {
    var v := ParseVersion(Trim(entry)).value;
    number := VersionSpells(Trim(entry));
    id := AggregateSpells(c, v.aggregate);
  }

  predicate Blank(s: string) {
    forall i :: 0 <= i < |s| ==> s[i] == ' ' || s[i] == '\t'
  }

  /** Spaces and tabs around an entry make no difference. */
  lemma {:induction false} BlanksAreTrimmed(left: string, s: string, right: string)
    requires Blank(left) && Blank(right)
    ensures Trim(left + s + right) == Trim(s)
    decreases |left| + |s| + |right|
  {
    var all := left + s + right;
    if left != [] {
      assert all[1..] == left[1..] + s + right;
      BlanksAreTrimmed(left[1..], s, right);
    } else if right == [] {
      assert all == s;
    } else if s == [] {
      assert all == right && right[1..] == [] + [] + right[1..];
      BlanksAreTrimmed([], [], right[1..]);
    } else if IsSpace(s[0]) {
      assert all[1..] == [] + s[1..] + right;
      BlanksAreTrimmed([], s[1..], right);
    } else {
      assert all[0] == s[0] && all[|all| - 1] == right[|right| - 1];
      assert all[..|all| - 1] == [] + s + right[..|right| - 1];
      BlanksAreTrimmed([], s, right[..|right| - 1]);
    }
  }

  function Present<T>(found: Option<T>): seq<T> {
    match found
    case None => []
    case Some(x) => [x]
  }

  /** The entries `f` makes something of, in order; the rest are skipped. */
  function FilterMap<S, T>(f: S -> Option<T>, entries: seq<S>): seq<T> {
    if entries == [] then [] else Present(f(entries[0])) + FilterMap(f, entries[1..])
  }

  function Parser(c: Codec): string -> Option<Wait> {
    entry => ParseEntry(c, entry)
  }

  function ParseHeader(c: Codec, value: string): seq<Wait> {
    FilterMap(Parser(c), Split(value, ','))
  }

  /** A value that is not plain text reads as an empty one. */
  function Decoded(value: string): string {
    if Printable(value) then value else ""
  }

  /** What the middleware waits for. */
  function ReadHeader(c: Codec, value: string): seq<Wait> {
    ParseHeader(c, Decoded(value))
  }

  lemma {:induction false} FilterMapCat<S, T>(f: S -> Option<T>, first: seq<S>, second: seq<S>)
    ensures FilterMap(f, first + second) == FilterMap(f, first) + FilterMap(f, second)
    decreases |first|
  {
    if first == [] {
      assert first + second == second;
    } else {
      var head, tail := first[0], first[1..];
      var all := first + second;
      assert all[0] == head && all[1..] == tail + second;
      FilterMapCat(f, tail, second);
      assert FilterMap(f, all) == Present(f(head)) + (FilterMap(f, tail) + FilterMap(f, second));
      assert FilterMap(f, first) == Present(f(head)) + FilterMap(f, tail);
    }
  }

  lemma FilterMapSnoc<S, T>(f: S -> Option<T>, xs: seq<S>, x: S)
    ensures FilterMap(f, xs + [x]) == FilterMap(f, xs) + Present(f(x))
  {
    FilterMapCat(f, xs, [x]);
    assert FilterMap(f, [x][1..]) == [];
  }

  lemma FilterMapSkips<S, T>(f: S -> Option<T>, first: seq<S>, junk: S, rest: seq<S>)
    requires f(junk) == None
    ensures FilterMap(f, first + [junk] + rest) == FilterMap(f, first + rest)
  {
    FilterMapSnoc(f, first, junk);
    assert FilterMap(f, first) + Present(f(junk)) == FilterMap(f, first);
    FilterMapCat(f, first + [junk], rest);
    FilterMapCat(f, first, rest);
  }

  lemma FilterMapJoined<T>(f: string -> Option<T>, entries: seq<string>)
    requires f("") == None && forall e | e in entries :: ',' !in e
    ensures FilterMap(f, Split(Join(entries, ','), ',')) == FilterMap(f, entries)
  {
    if entries == [] {
      assert Split("", ',') == [""];
      assert FilterMap(f, [""]) == FilterMap(f, [""][1..]);
    } else {
      SplitJoin(entries, ',');
    }
  }

  lemma FilterMapJunk<T>(f: string -> Option<T>, first: seq<string>, junk: string, rest: seq<string>)
    requires f(junk) == None && f("") == None
    requires forall e | e in first + [junk] + rest :: ',' !in e
    ensures FilterMap(f, Split(Join(first + [junk] + rest, ','), ',')) == FilterMap(f, Split(Join(first + rest, ','), ','))
  {
    forall e | e in first + rest ensures ',' !in e {
      assert e in first + [junk] + rest;
    }
    FilterMapJoined(f, first + rest);
    FilterMapJoined(f, first + [junk] + rest);
    FilterMapSkips(f, first, junk, rest);
  }

  /** A junk entry, wherever it stands, changes nothing about the others. */
  lemma JunkIsSkipped(c: Codec, first: seq<string>, junk: string, rest: seq<string>)
    requires ParseEntry(c, junk) == None
    requires forall e | e in first + [junk] + rest :: ',' !in e
    ensures ParseHeader(c, Join(first + [junk] + rest, ',')) == ParseHeader(c, Join(first + rest, ','))
  {
    assert Parser(c)("") == None;
    FilterMapJunk(Parser(c), first, junk, rest);
  }

  lemma PrintableCat(a: string, b: string)
    ensures Printable(a + b) <==> Printable(a) && Printable(b)
  {
    var all := a + b;
    assert forall i :: 0 <= i < |a| ==> all[i] == a[i];
    assert forall i :: 0 <= i < |b| ==> all[|a| + i] == b[i];
  }

  lemma {:induction false} JoinPrintable(parts: seq<string>)
    ensures Printable(Join(parts, ',')) <==> forall p | p in parts :: Printable(p)
    decreases |parts|
  {
    if |parts| == 1 {
      assert parts == [parts[0]];
    } else if parts != [] {
      JoinPrintable(parts[1..]);
      assert parts == [parts[0]] + parts[1..];
      PrintableCat(parts[0], [','] + Join(parts[1..], ','));
      PrintableCat([','], Join(parts[1..], ','));
      assert parts[0] + [','] + Join(parts[1..], ',') == parts[0] + ([','] + Join(parts[1..], ','));
    }
  }

  /** In the header as it is read, a junk entry changes nothing about the others exactly when it is
      plain text; any other character in it costs every entry of the header. */
  lemma JunkCosts(c: Codec, first: seq<string>, junk: string, rest: seq<string>)
    requires ParseEntry(c, junk) == None
    requires forall e | e in first + [junk] + rest :: ',' !in e
    ensures ReadHeader(c, Join(first + [junk] + rest, ',')) == if Printable(junk) then ReadHeader(c, Join(first + rest, ',')) else []
  {
    var all := first + [junk] + rest;
    JoinPrintable(all);
    JoinPrintable(first + rest);
    JunkIsSkipped(c, first, junk, rest);
    EmptyHeader(c);
    assert forall e :: e in all <==> e in first + rest || e == junk;
  }

  lemma EmptyHeader(c: Codec)
    ensures ParseHeader(c, "") == []
  {
    assert Split("", ',') == [""];
    assert FilterMap(Parser(c), [""][1..]) == [];
    assert Parser(c)("") == None;
  }

  // ---------------------------------------------------------------- the client half

  datatype Entry = Entry(aggregate: string, version: nat)

  /** What one response header tells the client, if anything. */
  function Accept(version: Option<string>): Option<Entry> {
    if version.None? || version.value == "" then None
    else
      var at := LastIndex(version.value, '@');
      if at < 0 then None
      else
        var aggregate, digits := version.value[..at], version.value[at + 1..];
        if ':' !in aggregate || digits == [] || !AllDigits(digits) then None
        else Some(Entry(aggregate, Value(digits)))
  }

  /** Exactly what a client takes note of: an aggregate with a colon in it, an `@`, and digits. */
  lemma AcceptIff(version: Option<string>, e: Entry)
    ensures Accept(version) == Some(e) <==>
      ':' in e.aggregate && exists digits: string ::
        version == Some(e.aggregate + ['@'] + digits) && digits != [] && AllDigits(digits) && Value(digits) == e.version
  {
    if Accept(version) == Some(e) {
      var text := version.value;
      var at := LastIndex(text, '@');
      assert text == text[..at] + ['@'] + text[at + 1..];
      assert version == Some(e.aggregate + ['@'] + text[at + 1..]);
    }
    if digits: string :| version == Some(e.aggregate + ['@'] + digits) && digits != [] && AllDigits(digits) && Value(digits) == e.version {
      assert '@' !in digits;
      LastIndexIs(e.aggregate, '@', digits);
    }
  }

  function Max(a: nat, b: nat): nat {
    if a < b then b else a
  }

  /** A known aggregate keeps its place and moves forward; a new one goes last. */
  function Bump(latest: seq<Entry>, e: Entry): seq<Entry> {
    if latest == [] then [e]
    else if latest[0].aggregate == e.aggregate
    then [Entry(e.aggregate, Max(e.version, latest[0].version))] + latest[1..]
    else [latest[0]] + Bump(latest[1..], e)
  }

  function Recorded(latest: seq<Entry>, version: Option<string>): seq<Entry> {
    match Accept(version)
    case None => latest
    case Some(e) => Bump(latest, e)
  }

  /** Everything remembered after a sequence of responses. */
  function Latest(calls: seq<Option<string>>): seq<Entry> {
    if calls == [] then [] else Recorded(Latest(calls[..|calls| - 1]), calls[|calls| - 1])
  }

  function EntryText(e: Entry): string {
    FormatVersion(e.aggregate, e.version)
  }

  function Texts(text: Entry -> string, latest: seq<Entry>): seq<string> {
    if latest == [] then [] else [text(latest[0])] + Texts(text, latest[1..])
  }

  /** No header at all when nothing was written. */
  function HeaderOf(latest: seq<Entry>): Option<string> {
    var value := Join(Texts(EntryText, latest), ',');
    if value == "" then None else Some(value)
  }

  /** Bumping finds the aggregate's entry, or the end. */
  lemma {:induction false} BumpAt(latest: seq<Entry>, e: Entry, i: nat)
    requires i <= |latest| && forall k :: 0 <= k < i ==> latest[k].aggregate != e.aggregate
    requires i < |latest| ==> latest[i].aggregate == e.aggregate
    ensures Bump(latest, e) ==
      if i < |latest| then latest[i := Entry(e.aggregate, Max(e.version, latest[i].version))] else latest + [e]
  {
    if i > 0 {
      BumpAt(latest[1..], e, i - 1);
    } else if latest != [] {
      assert latest[0 := latest[0]] == [latest[0]] + latest[1..];
    }
  }

  class VersionLog {
    var latest: seq<Entry>

    constructor ()
      ensures latest == []
    {
      latest := [];
    }

    method Record(version: Option<string>)
      modifies this
      ensures latest == Recorded(old(latest), version)
    {
      if version.None? || version.value == "" {
        return;
      }
      var at := LastIndex(version.value, '@');
      if at < 0 {
        return;
      }
      var aggregate, digits := version.value[..at], version.value[at + 1..];
      if ':' !in aggregate || digits == [] || !AllDigits(digits) {
        return;
      }
      var reached := Value(digits);
      var i := 0;
      while i < |latest| && latest[i].aggregate != aggregate
        invariant 0 <= i <= |latest| && latest == old(latest)
        invariant forall k :: 0 <= k < i ==> latest[k].aggregate != aggregate
      {
        i := i + 1;
      }
      BumpAt(latest, Entry(aggregate, reached), i);
      if i < |latest| {
        latest := latest[i := Entry(aggregate, Max(reached, latest[i].version))];
      } else {
        latest := latest + [Entry(aggregate, reached)];
      }
    }

  }

  // ---------------------------------------------------------------- the two halves together

  /** `n` is the largest version any of the calls reported for the aggregate. */
  ghost predicate Newest(calls: seq<Option<string>>, aggregate: string, n: nat) {
    && (exists call | call in calls :: Accept(call) == Some(Entry(aggregate, n)))
    && (forall call | call in calls && Accept(call).Some? && Accept(call).value.aggregate == aggregate ::
          Accept(call).value.version <= n)
  }

  ghost predicate OnePerAggregate(latest: seq<Entry>) {
    forall i, j :: 0 <= i < j < |latest| ==> latest[i].aggregate != latest[j].aggregate
  }

  function Lookup(latest: seq<Entry>, aggregate: string): Option<nat> {
    if latest == [] then None
    else if latest[0].aggregate == aggregate then Some(latest[0].version)
    else Lookup(latest[1..], aggregate)
  }

  lemma {:induction false} LookupIn(latest: seq<Entry>, e: Entry)
    requires OnePerAggregate(latest)
    ensures e in latest <==> Lookup(latest, e.aggregate) == Some(e.version)
  {
    if latest != [] {
      LookupIn(latest[1..], e);
      assert latest == [latest[0]] + latest[1..];
      assert forall i :: 0 < i < |latest| ==> latest[i].aggregate != latest[0].aggregate;
    }
  }

  lemma {:induction false} LookupAbsent(latest: seq<Entry>, aggregate: string)
    ensures Lookup(latest, aggregate) == None <==> forall e | e in latest :: e.aggregate != aggregate
  {
    if latest != [] {
      LookupAbsent(latest[1..], aggregate);
      assert latest == [latest[0]] + latest[1..];
    }
  }

  lemma {:induction false} BumpLookup(latest: seq<Entry>, e: Entry, aggregate: string)
    ensures Lookup(Bump(latest, e), aggregate) ==
      if aggregate != e.aggregate then Lookup(latest, aggregate)
      else match Lookup(latest, aggregate) case None => Some(e.version) case Some(n) => Some(Max(e.version, n))
  {
    if latest != [] {
      BumpLookup(latest[1..], e, aggregate);
    }
  }

  lemma {:induction false} BumpOnePer(latest: seq<Entry>, e: Entry)
    requires OnePerAggregate(latest)
    ensures OnePerAggregate(Bump(latest, e))
  {
    if latest != [] && latest[0].aggregate != e.aggregate {
      BumpOnePer(latest[1..], e);
      LookupAbsent(latest[1..], latest[0].aggregate);
      BumpLookup(latest[1..], e, latest[0].aggregate);
      LookupAbsent(Bump(latest[1..], e), latest[0].aggregate);
    }
  }

  /** The client's memory holds, once each, exactly the aggregates reported, at their maximum. */
  lemma {:induction false} LatestIsNewest(calls: seq<Option<string>>)
    ensures OnePerAggregate(Latest(calls))
    ensures forall e :: e in Latest(calls) <==> Newest(calls, e.aggregate, e.version)
  {
    LatestOnePer(calls);
    forall e ensures e in Latest(calls) <==> Newest(calls, e.aggregate, e.version) {
      LookupIn(Latest(calls), e);
      LookupNewest(calls, e.aggregate);
    }
  }

  lemma {:induction false} LatestOnePer(calls: seq<Option<string>>)
    ensures OnePerAggregate(Latest(calls))
  {
    if calls != [] {
      LatestOnePer(calls[..|calls| - 1]);
      match Accept(calls[|calls| - 1])
      case None =>
      case Some(e) => BumpOnePer(Latest(calls[..|calls| - 1]), e);
    }
  }

  ghost predicate Silent(calls: seq<Option<string>>, aggregate: string) {
    forall call | call in calls && Accept(call).Some? :: Accept(call).value.aggregate != aggregate
  }

  lemma {:induction false} LookupNewest(calls: seq<Option<string>>, aggregate: string)
    ensures match Lookup(Latest(calls), aggregate)
      case None => Silent(calls, aggregate)
      case Some(n) => Newest(calls, aggregate, n)
    ensures forall n: nat :: Newest(calls, aggregate, n) <==> Lookup(Latest(calls), aggregate) == Some(n)
  {
    if calls != [] {
      var before, last := calls[..|calls| - 1], calls[|calls| - 1];
      assert calls == before + [last];
      LookupNewest(before, aggregate);
      match Accept(last)
      case None =>
      case Some(e) => BumpLookup(Latest(before), e, aggregate);
    }
  }

  /** A response this server writes: a real table name, any id, any signed version. */
  ghost predicate Minted(c: Codec, version: Option<string>) {
    exists table: string, id: Id, n: int ::
      TableName(table) && I64_MIN <= n <= I64_MAX && version == Some(FormatVersion(AggregateId(c, table, id), n))
  }

  predicate TableName(table: string) {
    table != "" && !IsSpace(table[0]) && ':' !in table && ',' !in table && Printable(table)
  }

  /** The tables whose versions the services report. */
  lemma ReportedTables(table: string)
    requires table in {"booking", "payment", "payout", "refresh_token", "spot", "user"}
    ensures TableName(table)
  {
  }

  /** What the server reads from the header of a client with this memory. */
  function Waits(c: Codec, latest: seq<Entry>): seq<Wait> {
    match HeaderOf(latest)
    case None => []
    case Some(value) => ReadHeader(c, value)
  }

  /** What a client makes of a server's response. */
  lemma ResponseAccepted(c: Codec, table: string, id: Id, n: nat)
    ensures Accept(Some(FormatVersion(AggregateId(c, table, id), n))) == Some(Entry(AggregateId(c, table, id), n))
  {
    LastIndexIs(AggregateId(c, table, id), '@', Show(n));
    ShowValue(n);
    assert AggregateId(c, table, id)[|table|] == ':';
  }

  /** A remembered entry of a client that accepted only server responses. */
  ghost predicate Genuine(c: Codec, e: Entry, w: Wait) {
    && TableName(w.table) && 0 <= w.version <= I64_MAX
    && e == Entry(AggregateId(c, w.table, w.id), w.version)
  }

  /** What the client accepts from a server's response is genuine. */
  lemma AcceptedIsGenuine(c: Codec, call: Option<string>) returns (w: Wait)
    requires Sound(c) && Minted(c, call) && Accept(call).Some?
    ensures Genuine(c, Accept(call).value, w)
  {
    var table: string, id: Id, n: int :|
      TableName(table) && I64_MIN <= n <= I64_MAX && call == Some(FormatVersion(AggregateId(c, table, id), n));
    w := Wait(table, id, n);
    if n < 0 {
      NegativeIsRefused(AggregateId(c, table, id), n);
    }
    ResponseAccepted(c, table, id, n);
  }

  lemma NegativeIsRefused(aggregate: string, n: int)
    requires n < 0
    ensures Accept(Some(FormatVersion(aggregate, n))) == None
  {
    LastIndexIs(aggregate, '@', ShowInt(n));
    assert !IsDigit(ShowInt(n)[0]);
  }

  lemma NewestIsGenuine(c: Codec, calls: seq<Option<string>>, e: Entry) returns (w: Wait)
    requires Sound(c) && Newest(calls, e.aggregate, e.version)
    requires forall call | call in calls && Accept(call).Some? :: Minted(c, call)
    ensures Genuine(c, e, w)
  {
    var call :| call in calls && Accept(call) == Some(Entry(e.aggregate, e.version));
    w := AcceptedIsGenuine(c, call);
  }

  /** Entries that were all reported by the server are genuine. */
  lemma {:induction false} ReportedAreGenuine(c: Codec, calls: seq<Option<string>>, latest: seq<Entry>) returns (waits: seq<Wait>)
    requires Sound(c)
    requires forall call | call in calls && Accept(call).Some? :: Minted(c, call)
    requires forall e | e in latest :: Newest(calls, e.aggregate, e.version)
    ensures |waits| == |latest| && forall i :: 0 <= i < |waits| ==> Genuine(c, latest[i], waits[i])
  {
    if latest == [] {
      waits := [];
    } else {
      var w := NewestIsGenuine(c, calls, latest[0]);
      var rest := ReportedAreGenuine(c, calls, latest[1..]);
      waits := [w] + rest;
    }
  }

  // ---------------------------------------------------------------- what the server hears

  function TrimStart(s: string): string {
    if s != [] && IsSpace(s[0]) then TrimStart(s[1..]) else s
  }

  lemma {:induction false} TrimSpelled(aggregate: string, digits: string)
    requires digits != [] && AllDigits(digits)
    ensures Trim(aggregate + ['@'] + digits) == TrimStart(aggregate) + ['@'] + digits
  {
    var text := aggregate + ['@'] + digits;
    assert text[|text| - 1] == digits[|digits| - 1];
    if aggregate != [] && IsSpace(aggregate[0]) {
      assert text[0] == aggregate[0] && text[1..] == aggregate[1..] + ['@'] + digits;
      TrimSpelled(aggregate[1..], digits);
    } else {
      assert text[0] == if aggregate == [] then '@' else aggregate[0];
    }
  }

  /** What the server makes of one remembered entry. */
  function Understood(c: Codec, e: Entry): Option<Wait> {
    if e.version > I64_MAX then None
    else
      match SplitAggregate(c, TrimStart(e.aggregate))
      case None => None
      case Some(a) => Some(Wait(a.table, a.id, e.version))
  }

  /** The header value of one entry: the parts before the aggregate's last comma stand alone, and the
      version goes with the last part. */
  function Heard(c: Codec, e: Entry): seq<Wait> {
    var parts := Split(e.aggregate, ',');
    FilterMap(Parser(c), parts[..|parts| - 1]) + Present(Understood(c, Entry(parts[|parts| - 1], e.version)))
  }

  lemma EntryUnderstood(c: Codec, e: Entry)
    ensures Parser(c)(EntryText(e)) == Understood(c, e)
  {
    TrimSpelled(e.aggregate, Show(e.version));
    VersionParses(TrimStart(e.aggregate), e.version);
  }

  /** A text without commas at its end stays in one piece there. */
  lemma {:induction false} SplitTail(s: string, tail: string)
    requires ',' !in tail
    ensures var parts := Split(s, ',');
      Split(s + tail, ',') == parts[..|parts| - 1] + [parts[|parts| - 1] + tail]
    decreases |s|
  {
    var i := FirstIndex(s, ',');
    var parts := Split(s, ',');
    if i < 0 {
      assert ',' !in s + tail;
      assert parts[..0] == [];
    } else {
      var front, back := s[..i], s[i + 1..];
      assert ',' !in front;
      assert s + tail == front + [','] + (back + tail);
      FirstIndexIs(front, ',', back + tail);
      SplitTail(back, tail);
      assert parts == [front] + Split(back, ',');
      assert parts[..|parts| - 1] == [front] + Split(back, ',')[..|Split(back, ',')| - 1];
    }
  }

  lemma EntryHeard(c: Codec, e: Entry)
    ensures FilterMap(Parser(c), Split(EntryText(e), ',')) == Heard(c, e)
  {
    var parts := Split(e.aggregate, ',');
    var n := |parts| - 1;
    var last := Entry(parts[n], e.version);
    SplitTail(e.aggregate, ['@'] + Show(e.version));
    assert EntryText(e) == e.aggregate + (['@'] + Show(e.version));
    assert EntryText(last) == parts[n] + (['@'] + Show(e.version));
    EntryUnderstood(c, last);
    FilterMapSnoc(Parser(c), parts[..n], EntryText(last));
  }

  /** An aggregate without commas is read whole. */
  lemma PlainHeard(c: Codec, e: Entry)
    requires ',' !in e.aggregate
    ensures Heard(c, e) == Present(Understood(c, e))
  {
    assert Split(e.aggregate, ',') == [e.aggregate];
    assert [e.aggregate][..0] == [];
  }

  function FlatMap<S, T>(f: S -> seq<T>, xs: seq<S>): seq<T> {
    if xs == [] then [] else f(xs[0]) + FlatMap(f, xs[1..])
  }

  lemma {:induction false} FlatMapIn<S, T>(f: S -> seq<T>, xs: seq<S>, y: T)
    ensures y in FlatMap(f, xs) <==> exists x | x in xs :: y in f(x)
  {
    if xs != [] {
      FlatMapIn(f, xs[1..], y);
      assert xs == [xs[0]] + xs[1..];
    }
  }

  lemma {:induction false} TextsHeard<T>(f: string -> Option<T>, text: Entry -> string, heard: Entry -> seq<T>, latest: seq<Entry>)
    requires forall e | e in latest :: FilterMap(f, Split(text(e), ',')) == heard(e)
    ensures FilterMap(f, SplitEach(Texts(text, latest), ',')) == FlatMap(heard, latest)
  {
    if latest != [] {
      assert latest[0] in latest;
      TextsHeard(f, text, heard, latest[1..]);
      var texts := Texts(text, latest);
      assert texts[1..] == Texts(text, latest[1..]);
      FilterMapCat(f, Split(texts[0], ','), SplitEach(texts[1..], ','));
    }
  }

  function Listener(c: Codec): Entry -> seq<Wait> {
    e => Heard(c, e)
  }

  ghost predicate AllPrintable(latest: seq<Entry>) {
    forall e | e in latest :: Printable(e.aggregate)
  }

  lemma EntryPrintable(e: Entry)
    ensures Printable(EntryText(e)) <==> Printable(e.aggregate)
  {
    PrintableCat(e.aggregate + ['@'], Show(e.version));
    PrintableCat(e.aggregate, ['@']);
  }

  lemma {:induction false} TextsPrintable(latest: seq<Entry>)
    ensures (forall text | text in Texts(EntryText, latest) :: Printable(text)) <==> AllPrintable(latest)
  {
    if latest != [] {
      TextsPrintable(latest[1..]);
      EntryPrintable(latest[0]);
      var texts := Texts(EntryText, latest);
      assert texts == [texts[0]] + texts[1..] && latest == [latest[0]] + latest[1..];
    }
  }

  /** When every aggregate of a client's header is plain text, the server hears each entry on its own,
      whatever the others say. Otherwise it hears nothing at all. */
  lemma WaitsAre(c: Codec, latest: seq<Entry>)
    ensures Waits(c, latest) == if AllPrintable(latest) then FlatMap(Listener(c), latest) else []
  {
    TextsPrintable(latest);
    JoinPrintable(Texts(EntryText, latest));
    EmptyHeader(c);
    if latest != [] {
      TextsJoin(latest);
      if AllPrintable(latest) {
        HeardEach(c, latest);
      }
    }
  }

  lemma HeardEach(c: Codec, latest: seq<Entry>)
    requires latest != []
    ensures ParseHeader(c, Join(Texts(EntryText, latest), ',')) == FlatMap(Listener(c), latest)
  {
    forall e | e in latest ensures FilterMap(Parser(c), Split(EntryText(e), ',')) == Listener(c)(e) {
      EntryHeard(c, e);
    }
    TextsHeard(Parser(c), EntryText, Listener(c), latest);
    TextsJoin(latest);
    SplitJoinEach(Texts(EntryText, latest), ',');
  }

  lemma TextsJoin(latest: seq<Entry>)
    requires latest != []
    ensures Texts(EntryText, latest) != [] && Join(Texts(EntryText, latest), ',') != ""
  {
    assert EntryText(latest[0]) != "";
  }

  /** Every aggregate the client accepted is plain text. */
  ghost predicate Readable(calls: seq<Option<string>>) {
    forall call | call in calls && Accept(call).Some? :: Printable(Accept(call).value.aggregate)
  }

  /** It can be seen from what the client remembers, before it sends anything. */
  lemma ReadableIff(calls: seq<Option<string>>)
    ensures Readable(calls) <==> AllPrintable(Latest(calls))
  {
    LatestIsNewest(calls);
    forall call | call in calls && Accept(call).Some?
      ensures exists e | e in Latest(calls) :: e.aggregate == Accept(call).value.aggregate
    {
      var aggregate := Accept(call).value.aggregate;
      LookupNewest(calls, aggregate);
      LookupIn(Latest(calls), Entry(aggregate, Lookup(Latest(calls), aggregate).value));
    }
    forall e | e in Latest(calls) ensures exists call | call in calls :: Accept(call) == Some(e) {
      assert Newest(calls, e.aggregate, e.version);
    }
  }

  /**
   For any responses whatever: if every aggregate accepted is plain text, the server waits for what it
   hears in the aggregates recorded, each with the largest version recorded for it, and for nothing
   else; if one is not, it waits for nothing.
   */
  lemma AnyCallsRoundTrip(c: Codec, calls: seq<Option<string>>, w: Wait)
    ensures w in Waits(c, Latest(calls)) <==>
      Readable(calls) && exists e: Entry :: Newest(calls, e.aggregate, e.version) && w in Heard(c, e)
  {
    var latest := Latest(calls);
    ReadableIff(calls);
    LatestIsNewest(calls);
    WaitsAre(c, latest);
    FlatMapIn(Listener(c), latest, w);
    if e :| e in latest && w in Listener(c)(e) {
      assert Newest(calls, e.aggregate, e.version) && w in Heard(c, e);
    }
    if e: Entry :| Newest(calls, e.aggregate, e.version) && w in Heard(c, e) {
      assert e in latest && w in Listener(c)(e);
    }
  }

  lemma GenuineUnderstood(c: Codec, e: Entry, w: Wait)
    requires Sound(c) && Genuine(c, e, w)
    ensures Understood(c, e) == Some(w) && ',' !in e.aggregate
  {
    AggregateRoundTrip(c, w.table, w.id);
    assert e.aggregate[0] == w.table[0];
  }

  /** A version the server wrote, the largest of its aggregate that the client was told. */
  ghost predicate Reported(c: Codec, calls: seq<Option<string>>, w: Wait) {
    TableName(w.table) && 0 <= w.version <= I64_MAX && Newest(calls, AggregateId(c, w.table, w.id), w.version)
  }

  /** Whatever else a client accepted, a version it got from the server is waited for if and only if
      every aggregate it accepted is plain text. */
  lemma VersionKeptIff(c: Codec, calls: seq<Option<string>>, w: Wait)
    requires Sound(c) && Reported(c, calls, w)
    ensures w in Waits(c, Latest(calls)) <==> Readable(calls)
  {
    var e := Entry(AggregateId(c, w.table, w.id), w.version);
    assert Genuine(c, e, w);
    GenuineUnderstood(c, e, w);
    PlainHeard(c, e);
    AnyCallsRoundTrip(c, calls, w);
    assert Newest(calls, e.aggregate, e.version) && w in Heard(c, e);
  }

  lemma {:induction false} FlatMapAll<S, T>(f: S -> seq<T>, xs: seq<S>, found: seq<T>)
    requires |xs| == |found| && forall i :: 0 <= i < |xs| ==> f(xs[i]) == [found[i]]
    ensures FlatMap(f, xs) == found
  {
    if xs != [] {
      FlatMapAll(f, xs[1..], found[1..]);
    }
  }

  /**
   Whatever mixture of server responses and junk the client saw, in whatever order. Told anything by
   the server at all, the server reads back every version it reported if and only if every aggregate
   accepted is plain text, and otherwise nothing; and when all that was accepted came from the server,
   it reads back exactly those versions, once each.
   */
  lemma HeaderRoundTrip(c: Codec, calls: seq<Option<string>>)
    requires Sound(c)
    ensures (exists w: Wait :: Reported(c, calls, w)) ==>
      ((forall w: Wait | Reported(c, calls, w) :: w in Waits(c, Latest(calls))) <==> Readable(calls))
    ensures !Readable(calls) ==> Waits(c, Latest(calls)) == []
    ensures AllMinted(c, calls) ==> Readable(calls) && OnlyReported(c, calls, Waits(c, Latest(calls)))
  {
    forall w: Wait | Reported(c, calls, w) ensures w in Waits(c, Latest(calls)) <==> Readable(calls) {
      VersionKeptIff(c, calls, w);
    }
    ReadableIff(calls);
    WaitsAre(c, Latest(calls));
    if AllMinted(c, calls) {
      MintedRoundTrip(c, calls);
    }
  }

  /** One response header with an accent in it, and the client has sent back nothing. */
  lemma OneAccentLosesAll(c: Codec, table: string, id: Id, n: nat)
    requires Sound(c) && TableName(table) && n <= I64_MAX
    ensures var calls := [Some(FormatVersion(AggregateId(c, table, id), n)), Some("\U{E9}:x@1")];
      Accept(calls[1]) == Some(Entry("\U{E9}:x", 1)) && Waits(c, Latest(calls)) == []
    ensures var calls := [Some(FormatVersion(AggregateId(c, table, id), n))];
      Waits(c, Latest(calls)) == [Wait(table, id, n)]
  {
    AccentAccepted();
    assert "\U{E9}:x"[0] == '\U{E9}';
    var told := Some(FormatVersion(AggregateId(c, table, id), n));
    OddLosesAll(c, [told], Some("\U{E9}:x@1"));
    assert [told] + [Some("\U{E9}:x@1")] == [told, Some("\U{E9}:x@1")];
    OneTold(c, table, id, n);
  }

  lemma OddLosesAll(c: Codec, calls: seq<Option<string>>, odd: Option<string>)
    requires Accept(odd).Some? && !Printable(Accept(odd).value.aggregate)
    ensures Waits(c, Latest(calls + [odd])) == []
  {
    assert odd in calls + [odd];
    ReadableIff(calls + [odd]);
    WaitsAre(c, Latest(calls + [odd]));
  }

  lemma OneTold(c: Codec, table: string, id: Id, n: nat)
    requires Sound(c) && TableName(table) && n <= I64_MAX
    ensures Waits(c, Latest([Some(FormatVersion(AggregateId(c, table, id), n))])) == [Wait(table, id, n)]
  {
    ResponseAccepted(c, table, id, n);
    OneLatest(Some(FormatVersion(AggregateId(c, table, id), n)));
    OneWait(c, Entry(AggregateId(c, table, id), n), Wait(table, id, n));
  }

  lemma OneWait(c: Codec, e: Entry, w: Wait)
    requires Sound(c) && Genuine(c, e, w)
    ensures Waits(c, [e]) == [w]
  {
    GenuineListened(c, e, w);
    WaitsAre(c, [e]);
    FlatMapAll(Listener(c), [e], [w]);
  }

  lemma GenuineListened(c: Codec, e: Entry, w: Wait)
    requires Sound(c) && Genuine(c, e, w)
    ensures Listener(c)(e) == [w] && AllPrintable([e])
  {
    GenuineUnderstood(c, e, w);
    PlainHeard(c, e);
    GenuinePrintable(c, e, w);
  }

  lemma OneLatest(call: Option<string>)
    requires Accept(call).Some?
    ensures Latest([call]) == [Accept(call).value]
  {
    assert [call][..0] == [];
  }

  lemma AccentAccepted()
    ensures Accept(Some("\U{E9}:x@1")) == Some(Entry("\U{E9}:x", 1))
  {
    assert "\U{E9}:x@1" == "\U{E9}:x" + ['@'] + "1";
    LastIndexIs("\U{E9}:x", '@', "1");
    assert "1"[..0] == "" && Value("1") == 1;
    assert "\U{E9}:x"[1] == ':';
  }

  lemma GenuinePrintable(c: Codec, e: Entry, w: Wait)
    requires Sound(c) && Genuine(c, e, w)
    ensures Printable(e.aggregate)
  {
    PrintableCat(w.table + [':'], c.show(w.id));
    PrintableCat(w.table, [':']);
  }

  /** Everything the client accepted is a response of the server's. */
  ghost predicate AllMinted(c: Codec, calls: seq<Option<string>>) {
    forall call | call in calls && Accept(call).Some? :: Minted(c, call)
  }

  /** The waits are the aggregates reported, at their largest versions, each once. */
  ghost predicate OnlyReported(c: Codec, calls: seq<Option<string>>, waits: seq<Wait>) {
    && (forall w: Wait :: w in waits <==>
          TableName(w.table) && w.version >= 0 && Newest(calls, AggregateId(c, w.table, w.id), w.version))
    && (forall i, j :: 0 <= i < j < |waits| ==> waits[i].table != waits[j].table || waits[i].id != waits[j].id)
  }

  lemma MintedRoundTrip(c: Codec, calls: seq<Option<string>>)
    requires Sound(c) && AllMinted(c, calls)
    ensures Readable(calls) && OnlyReported(c, calls, Waits(c, Latest(calls)))
  {
    var latest := Latest(calls);
    LatestIsNewest(calls);
    var waits := ReportedAreGenuine(c, calls, latest);
    GenuineReadable(c, calls, waits);
    forall i | 0 <= i < |latest| ensures Listener(c)(latest[i]) == [waits[i]] {
      GenuineListened(c, latest[i], waits[i]);
    }
    WaitsAre(c, latest);
    FlatMapAll(Listener(c), latest, waits);
    forall w: Wait ensures w in waits <==>
      TableName(w.table) && w.version >= 0 && Newest(calls, AggregateId(c, w.table, w.id), w.version)
    {
      WaitedIffNewest(c, calls, waits, w);
    }
  }

  lemma GenuineReadable(c: Codec, calls: seq<Option<string>>, waits: seq<Wait>)
    requires Sound(c)
    requires |waits| == |Latest(calls)| && forall i :: 0 <= i < |waits| ==> Genuine(c, Latest(calls)[i], waits[i])
    ensures Readable(calls) && AllPrintable(Latest(calls))
  {
    ReadableIff(calls);
    forall e | e in Latest(calls) ensures Printable(e.aggregate) {
      var i :| 0 <= i < |waits| && Latest(calls)[i] == e;
      GenuinePrintable(c, e, waits[i]);
    }
  }

  lemma WaitedIffNewest(c: Codec, calls: seq<Option<string>>, waits: seq<Wait>, w: Wait)
    requires Sound(c)
    requires |waits| == |Latest(calls)| && forall i :: 0 <= i < |waits| ==> Genuine(c, Latest(calls)[i], waits[i])
    ensures w in waits <==>
      TableName(w.table) && w.version >= 0 && Newest(calls, AggregateId(c, w.table, w.id), w.version)
  {
    var latest := Latest(calls);
    LatestIsNewest(calls);
    if w in waits {
      var i :| 0 <= i < |waits| && waits[i] == w;
      assert latest[i] in latest && Genuine(c, latest[i], w);
    } else if TableName(w.table) && w.version >= 0 && Newest(calls, AggregateId(c, w.table, w.id), w.version) {
      var e := Entry(AggregateId(c, w.table, w.id), w.version);
      assert e in latest;
      var i :| 0 <= i < |latest| && latest[i] == e;
      assert Genuine(c, e, waits[i]);
      AggregateRoundTrip(c, w.table, w.id);
      AggregateRoundTrip(c, waits[i].table, waits[i].id);
      assert false;
    }
  }
}
