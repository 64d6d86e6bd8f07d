/**
 {fmt}'s format-string parser: what every call of the handler is, for the single-pass scan
 of short strings and the two-pass memchr scan of long ones.
 */
module FormatParser {
  import opened Wrappers

  const INT_MAX := 0x7FFF_FFFF

  // ------------------------------------------------------------------- the handler

  /** A call of the handler; positions stand for pointers into the format string. */
  datatype Event =
    | Text(text: string)
    | AutoId
    | IndexId(index: nat)
    | NameId(name: string)
    | Field(id: int, pos: nat)
    | Specs(id: int, pos: nat)

  datatype Error = InvalidFormat | UnknownSpecifier | MissingClose | UnmatchedClose | TooBig | Thrown

  /**
   A handler answers from the calls it has had, the last being the one it answers, with
   adjacent texts joined; it may throw instead.
   */
  datatype Handler = Handler(
    onId: seq<Event> -> Option<int>, onField: seq<Event> -> bool, onSpecs: seq<Event> -> Option<nat>)

  /** on_format_specs returns a pointer into the range it was given. */
  ghost predicate ValidHandler(h: Handler, s: string) {
    forall log: seq<Event> | |log| > 0 && log[|log| - 1].Specs? && log[|log| - 1].pos <= |s| && h.onSpecs(log).Some? ::
      log[|log| - 1].pos <= h.onSpecs(log).value <= |s|
  }

  function AddText(log: seq<Event>, t: string): seq<Event> {
    if t == "" then log
    else if |log| > 0 && log[|log| - 1].Text? then log[..|log| - 1] + [Text(log[|log| - 1].text + t)]
    else log + [Text(t)]
  }

  /** The calls with empty texts dropped and adjacent texts joined. */
  function Merge(calls: seq<Event>): seq<Event> {
    if calls == [] then []
    else
      var before, last := Merge(calls[..|calls| - 1]), calls[|calls| - 1];
      if last.Text? then AddText(before, last.text) else before + [last]
  }

  lemma MergeSnoc(calls: seq<Event>, e: Event)
    ensures Merge(calls + [e]) == if e.Text? then AddText(Merge(calls), e.text) else Merge(calls) + [e]
  {
    assert (calls + [e])[..|calls|] == calls;
  }

  lemma AddTextTwice(log: seq<Event>, a: string, b: string)
    ensures AddText(AddText(log, a), b) == AddText(log, a + b)
  {
    if a == "" {
      assert a + b == b;
    } else if b == "" {
      assert a + b == a;
    } else if |log| > 0 && log[|log| - 1].Text? {
      assert log[|log| - 1].text + (a + b) == log[|log| - 1].text + a + b;
      assert AddText(log, a)[..|log| - 1] == log[..|log| - 1];
    } else {
      assert AddText(log, a)[..|log|] == log;
    }
  }

  /** Where parsing stands: going on at a position, or ended by an exception. */
  datatype Step = Go(log: seq<Event>, pos: nat) | Stop(log: seq<Event>, error: Error)

  // ---------------------------------------------------------------- argument ids

  predicate IsDigit(c: char) { '0' <= c <= '9' }

  predicate IsNameStart(c: char) { 'a' <= c <= 'z' || 'A' <= c <= 'Z' || c == '_' }

  predicate IsNameChar(c: char) { IsNameStart(c) || IsDigit(c) }

  function DigitEnd(s: string, p: nat): (r: nat)
    requires p <= |s|
    ensures p <= r <= |s|
    ensures forall i | p <= i < r :: IsDigit(s[i])
    ensures r < |s| ==> !IsDigit(s[r])
    decreases |s| - p
  {
    if p < |s| && IsDigit(s[p]) then DigitEnd(s, p + 1) else p
  }

  function NameEnd(s: string, p: nat): (r: nat)
    requires p <= |s|
    ensures p <= r <= |s|
    ensures forall i | p <= i < r :: IsNameChar(s[i])
    ensures r < |s| ==> !IsNameChar(s[r])
    decreases |s| - p
  {
    if p < |s| && IsNameChar(s[p]) then NameEnd(s, p + 1) else p
  }

  /** The number a string of digits denotes. */
  function Decimal(t: string): nat {
    if t == "" then 0 else Decimal(t[..|t| - 1]) * 10 + Digit(t[|t| - 1])
  }

  function Digit(c: char): nat { if IsDigit(c) then (c - '0') as nat else 0 }

  lemma {:induction false} DecimalGrows(s: string, p: nat, q: nat, r: nat)
    requires p <= q <= r <= |s| && forall i | p <= i < r :: IsDigit(s[i])
    ensures Decimal(s[p..q]) <= Decimal(s[p..r])
    decreases r
  {
    if q < r {
      assert s[p..r][..r - p - 1] == s[p..r - 1];
      DecimalGrows(s, p, q, r - 1);
    }
  }

  datatype Id = Auto | Index(index: nat) | Name(name: string) | Bad(error: Error)

  datatype Parsed = Parsed(id: Id, pos: nat)

  /** What an argument id starting at b means. */
  function ArgId(s: string, b: nat): (r: Parsed)
    requires b < |s|
    ensures b <= r.pos <= |s|
  {
    var c := s[b];
    if c == '}' || c == ':' then Parsed(Auto, b)
    else if IsDigit(c) then
      var e := if c == '0' then b + 1 else DigitEnd(s, b);
      var n := if c == '0' then 0 else Decimal(s[b..e]);
      if n > INT_MAX then Parsed(Bad(TooBig), b)
      else if e == |s| || (s[e] != '}' && s[e] != ':') then Parsed(Bad(InvalidFormat), b)
      else Parsed(Index(n), e)
    else if IsNameStart(c) then Parsed(Name(s[b..NameEnd(s, b)]), NameEnd(s, b))
    else Parsed(Bad(InvalidFormat), b)
  }

  /** Unsigned 32-bit arithmetic; begin moves past the digits unless the number is too big. */
  method ParseNonnegativeInt(s: string, begin: nat) returns (r: Option<nat>, pos: nat)
    requires begin < |s| && IsDigit(s[begin])
    ensures var n := Decimal(s[begin..DigitEnd(s, begin)]);
      if n > INT_MAX then r == None else r == Some(n) && pos == DigitEnd(s, begin)
  {
    ghost var end := DigitEnd(s, begin);
    var value: nat := 0;
    var big := INT_MAX / 10;
    pos := begin;
    while true
      invariant begin <= pos < end
      invariant value == Decimal(s[begin..pos]) && value <= 10 * big + 9
      decreases |s| - pos
    {
      assert s[begin..pos + 1][..pos - begin] == s[begin..pos];
      DecimalGrows(s, begin, pos + 1, end);
      if value > big {
        value := INT_MAX + 1;
        break;
      }
      // value * 10 + 9 fits 32 bits
      value := value * 10 + Digit(s[pos]);
      pos := pos + 1;
      if !(pos != |s| && '0' <= s[pos] <= '9') {
        break;
      }
    }
    if value > INT_MAX { return None, pos; }
    r := Some(value);
  }

  method ParseArgId(s: string, begin: nat) returns (id: Id, pos: nat)
    requires begin < |s|
    ensures id == ArgId(s, begin).id
    ensures !id.Bad? ==> pos == ArgId(s, begin).pos
  {
    var c := s[begin];
    if c != '}' && c != ':' {
      id, pos := DoParseArgId(s, begin);
    } else {
      id, pos := Auto, begin;
    }
  }

  method DoParseArgId(s: string, begin: nat) returns (id: Id, pos: nat)
    requires begin < |s| && s[begin] != '}' && s[begin] != ':'
    ensures id == ArgId(s, begin).id
    ensures !id.Bad? ==> pos == ArgId(s, begin).pos
  {
    pos := begin;
    var c := s[pos];
    if '0' <= c <= '9' {
      var index := 0;
      if c != '0' {
        var r;
        r, pos := ParseNonnegativeInt(s, pos);
        if r.None? { return Bad(TooBig), pos; }
        index := r.value;
      } else {
        pos := pos + 1;
      }
      if pos == |s| || (s[pos] != '}' && s[pos] != ':') { return Bad(InvalidFormat), pos; }
      return Index(index), pos;
    }
    if !IsNameStart(c) { return Bad(InvalidFormat), pos; }
    pos := pos + 1;
    while pos != |s| && (IsNameStart(s[pos]) || '0' <= s[pos] <= '9')
      invariant begin < pos <= |s| && NameEnd(s, pos) == NameEnd(s, begin)
      decreases |s| - pos
    {
      pos := pos + 1;
    }
    id := Name(s[begin..pos]);
  }

  // ---------------------------------------------------------- replacement fields

  function IdEvent(id: Id): Event
    requires !id.Bad?
  {
    match id case Auto => AutoId case Index(n) => IndexId(n) case Name(t) => NameId(t)
  }

  /** The close of a field whose argument id ends at p. */
  function CloseField(h: Handler, s: string, p: nat, arg: int, log: seq<Event>): Step
    requires p <= |s|
  {
    if p < |s| && s[p] == '}' then
      var log' := log + [Field(arg, p)];
      if h.onField(log') then Go(log', p + 1) else Stop(log', Thrown)
    else if p < |s| && s[p] == ':' then
      var log' := log + [Specs(arg, p + 1)];
      var r := h.onSpecs(log');
      if r.None? then Stop(log', Thrown)
      else if r.value < |s| && s[r.value] == '}' then Go(log', r.value + 1)
      else Stop(log', UnknownSpecifier)
    else Stop(log, MissingClose)
  }

  /** What the brace at b begins: an escaped brace or a replacement field. */
  function FieldAt(h: Handler, s: string, b: nat, log: seq<Event>): (r: Step)
    requires b < |s|
    ensures ValidHandler(h, s) && r.Go? ==> b + 2 <= r.pos <= |s|
  {
    if b + 1 == |s| then Stop(log, InvalidFormat)
    else if s[b + 1] == '{' then Go(AddText(log, "{"), b + 2)
    else
      var parsed := ArgId(s, b + 1);
      if parsed.id.Bad? then Stop(log, parsed.id.error)
      else
        var log' := log + [IdEvent(parsed.id)];
        var arg := h.onId(log');
        if arg.None? then Stop(log', Thrown) else CloseField(h, s, parsed.pos, arg.value, log')
  }

  /** The calls made so far, the position reached, and the exception if one ended parsing. */
  datatype State = State(calls: seq<Event>, pos: nat, error: Option<Error>)

  function Meaning(st: State): Step {
    if st.error.Some? then Stop(Merge(st.calls), st.error.value) else Go(Merge(st.calls), st.pos)
  }

  method ParseReplacementField(h: Handler, s: string, b: nat, calls: seq<Event>) returns (st: State)
    requires b < |s| && ValidHandler(h, s)
    ensures Meaning(st) == FieldAt(h, s, b, Merge(calls))
  {
    hide Merge, DigitEnd, NameEnd, Decimal;
    var begin := b + 1;
    if begin == |s| { return State(calls, |s|, Some(InvalidFormat)); }
    if s[begin] == '}' {
      st := OnId(h, Auto, calls, begin);
      if st.error.Some? { return; }
      var arg := h.onId(Merge(st.calls)).value;
      st := OnField(h, arg, st.calls, begin);
    } else if s[begin] == '{' {
      assert s[begin..begin + 1] == "{";
      MergeSnoc(calls, Text("{"));
      return State(calls + [Text(s[begin..begin + 1])], begin + 1, None);
    } else {
      var id;
      id, begin := ParseArgId(s, begin);
      if id.Bad? { return State(calls, b, Some(id.error)); }
      st := OnId(h, id, calls, begin);
      if st.error.Some? { return; }
      var arg := h.onId(Merge(st.calls)).value;
      st := FinishField(h, s, begin, arg, st.calls);
    }
  }

  /** What follows the argument id: the closing brace, or a colon and the specifiers. */
  method FinishField(h: Handler, s: string, p: nat, arg: int, calls: seq<Event>) returns (st: State)
    requires p <= |s| && ValidHandler(h, s)
    ensures Meaning(st) == CloseField(h, s, p, arg, Merge(calls))
  {
    hide Merge;
    if p != |s| && s[p] == '}' {
      st := OnField(h, arg, calls, p);
    } else if p != |s| && s[p] == ':' {
      MergeSnoc(calls, Specs(arg, p + 1));
      var calls' := calls + [Specs(arg, p + 1)];
      var r := h.onSpecs(Merge(calls'));
      if r.None? { return State(calls', p, Some(Thrown)); }
      var begin := r.value;
      if begin == |s| || s[begin] != '}' { return State(calls', |s|, Some(UnknownSpecifier)); }
      return State(calls', begin + 1, None);
    } else {
      return State(calls, |s|, Some(MissingClose));
    }
  }

  method OnId(h: Handler, id: Id, calls: seq<Event>, pos: nat) returns (st: State)
    requires !id.Bad?
    ensures st.calls == calls + [IdEvent(id)] && Merge(st.calls) == Merge(calls) + [IdEvent(id)]
    ensures st.error == if h.onId(Merge(st.calls)).None? then Some(Thrown) else None
  {
    MergeSnoc(calls, IdEvent(id));
    var calls' := calls + [IdEvent(id)];
    st := State(calls', pos, if h.onId(Merge(calls')).None? then Some(Thrown) else None);
  }

  method OnField(h: Handler, arg: int, calls: seq<Event>, pos: nat) returns (st: State)
    ensures st.calls == calls + [Field(arg, pos)] && Merge(st.calls) == Merge(calls) + [Field(arg, pos)]
    ensures st.pos == pos + 1 && st.error == if h.onField(Merge(st.calls)) then None else Some(Thrown)
  {
    MergeSnoc(calls, Field(arg, pos));
    var calls' := calls + [Field(arg, pos)];
    st := State(calls', pos + 1, if h.onField(Merge(calls')) then None else Some(Thrown));
  }

  // ---------------------------------------------------------- the reference meaning

  /** Reading on from p, with the text since `start` not yet given to the handler. */
  function Scan(h: Handler, s: string, start: nat, p: nat, log: seq<Event>): Step
    requires start <= p <= |s| && ValidHandler(h, s)
    decreases |s| - p
  {
    if p == |s| then Go(AddText(log, s[start..]), |s|)
    else if s[p] == '{' then
      var field := FieldAt(h, s, p, AddText(log, s[start..p]));
      if field.Stop? then field else Scan(h, s, field.pos, field.pos, field.log)
    else if s[p] == '}' then
      if p + 1 < |s| && s[p + 1] == '}' then Scan(h, s, p + 2, p + 2, AddText(log, s[start..p + 1]))
      else Stop(log, UnmatchedClose)
    else Scan(h, s, start, p + 1, log)
  }

  /** The loop for strings under 32 characters, right for every string. */
  method ShortScan(h: Handler, s: string) returns (st: State)
    requires ValidHandler(h, s)
    ensures Meaning(st) == Scan(h, s, 0, 0, [])
  {
    hide FieldAt, AddText;
    st := State([], 0, None);
    var p := 0;
    while p != |s|
      invariant st.pos <= p <= |s| && st.error.None?
      invariant Scan(h, s, st.pos, p, Merge(st.calls)) == Scan(h, s, 0, 0, [])
      decreases |s| - p
    {
      var c := s[p];
      p := p + 1;
      if c == '{' {
        MergeSnoc(st.calls, Text(s[st.pos..p - 1]));
        st := ParseReplacementField(h, s, p - 1, st.calls + [Text(s[st.pos..p - 1])]);
        if st.error.Some? { return; }
        p := st.pos;
      } else if c == '}' {
        if p == |s| || s[p] != '}' { return State(st.calls, p, Some(UnmatchedClose)); }
        MergeSnoc(st.calls, Text(s[st.pos..p]));
        p := p + 1;
        st := State(st.calls + [Text(s[st.pos..p - 1])], p, None);
      }
    }
    MergeSnoc(st.calls, Text(s[st.pos..]));
    st := State(st.calls + [Text(s[st.pos..])], |s|, None);
  }

  // ---------------------------------------------------------------- the long scan

  /** memchr: the first c in [lo, hi), or hi. */
  function Find(s: string, lo: nat, hi: nat, c: char): (r: nat)
    requires lo <= hi <= |s|
    ensures lo <= r <= hi && (forall i | lo <= i < r :: s[i] != c) && (r < hi ==> s[r] == c)
    decreases hi - lo
  {
    if lo == hi || s[lo] == c then lo else Find(s, lo + 1, hi, c)
  }

  lemma {:induction false} SkipPlain(h: Handler, s: string, start: nat, p: nat, q: nat, log: seq<Event>)
    requires start <= p <= q <= |s| && ValidHandler(h, s)
    requires forall i | p <= i < q :: s[i] != '{' && s[i] != '}'
    ensures Scan(h, s, start, p, log) == Scan(h, s, start, q, log)
    decreases q - p
  {
    if p < q { SkipPlain(h, s, start, p + 1, q, log); }
  }

  /** `write`: the text of [from, end), which has no opening brace, with closing braces checked. */
  method Write(h: Handler, s: string, from: nat, end: nat, calls: seq<Event>) returns (st: State)
    requires from <= end <= |s| && ValidHandler(h, s)
    requires forall i | from <= i < end :: s[i] != '{'
    requires end < |s| ==> s[end] == '{'
    ensures st.error.Some? ==> Meaning(st) == Scan(h, s, from, from, Merge(calls))
    ensures st.error.None? ==>
              st.pos == end && Scan(h, s, end, end, Merge(st.calls)) == Scan(h, s, from, from, Merge(calls))
  {
    hide FieldAt, AddText;
    st := State(calls, from, None);
    if from == end { return; }
    while true
      invariant from <= st.pos <= end && st.error.None?
      invariant Scan(h, s, st.pos, st.pos, Merge(st.calls)) == Scan(h, s, from, from, Merge(calls))
      decreases end - st.pos
    {
      var p := Find(s, st.pos, end, '}');
      SkipPlain(h, s, st.pos, st.pos, p, Merge(st.calls));
      if p == end {
        MergeSnoc(st.calls, Text(s[st.pos..end]));
        FlushAtEnd(h, s, st.pos, end, Merge(st.calls));
        return State(st.calls + [Text(s[st.pos..end])], end, None);
      }
      p := p + 1;
      if p == end || s[p] != '}' { return State(st.calls, p, Some(UnmatchedClose)); }
      MergeSnoc(st.calls, Text(s[st.pos..p]));
      st := State(st.calls + [Text(s[st.pos..p])], p + 1, None);
    }
  }

  /** At an opening brace or the end, pending text may be given to the handler first. */
  lemma FlushAtEnd(h: Handler, s: string, start: nat, p: nat, log: seq<Event>)
    requires start <= p <= |s| && ValidHandler(h, s) && (p < |s| ==> s[p] == '{')
    ensures Scan(h, s, start, p, log) == Scan(h, s, p, p, AddText(log, s[start..p]))
  {
    assert s[p..p] == "";
    if p == |s| { assert s[start..] == s[start..p] && s[p..] == ""; }
  }

  /** The loop for longer strings, right for every string. */
  method LongScan(h: Handler, s: string) returns (st: State)
    requires ValidHandler(h, s)
    ensures Meaning(st) == Scan(h, s, 0, 0, [])
  {
    hide FieldAt;
    st := State([], 0, None);
    while st.pos != |s|
      invariant st.pos <= |s| && st.error.None?
      invariant Scan(h, s, st.pos, st.pos, Merge(st.calls)) == Scan(h, s, 0, 0, [])
      decreases |s| - st.pos
    {
      var p := st.pos;
      if s[p] != '{' {
        p := Find(s, st.pos + 1, |s|, '{');
        if p == |s| {
          st := Write(h, s, st.pos, |s|, st.calls);
          return;
        }
      }
      st := Write(h, s, st.pos, p, st.calls);
      if st.error.Some? { return; }
      st := ParseReplacementField(h, s, p, st.calls);
      if st.error.Some? { return; }
    }
  }

  /** parse_format_string: which scan runs cannot be told from the calls. */
  method ParseFormatString(h: Handler, s: string) returns (st: State)
    requires ValidHandler(h, s)
    ensures Meaning(st) == Scan(h, s, 0, 0, [])
  {
    if |s| < 32 { st := ShortScan(h, s); } else { st := LongScan(h, s); }
  }
}
