/**
 Format strings written from their parts: whatever literal text, argument ids and
 specifiers are spelled, parsing gives back exactly those parts.
 */
module FormatRender {
  import opened Wrappers
  import opened FormatParser

  datatype Piece = Literal(text: string) | Replace(arg: Id, specs: Option<string>)

  function EscapedChar(c: char): string { if c == '{' then "{{" else if c == '}' then "}}" else [c] }

  function Escaped(t: string): string {
    if t == "" then ""
    else EscapedChar(t[0]) + Escaped(t[1..])
  }

  function Spelled(n: nat): (r: string)
    ensures |r| > 0 && forall i | 0 <= i < |r| :: IsDigit(r[i])
  {
    var last := [('0' as int + n % 10) as char];
    if n < 10 then last else Spelled(n / 10) + last
  }

  function ArgText(id: Id): string
    requires !id.Bad?
  {
    match id case Auto => "" case Index(n) => Spelled(n) case Name(t) => t
  }

  function CloseText(specs: Option<string>): string {
    match specs case None => "}" case Some(t) => ":" + (t + "}")
  }

  function PieceText(p: Piece): string
    requires Writable(p)
  {
    match p
    case Literal(t) => Escaped(t)
    case Replace(arg, specs) => "{" + (ArgText(arg) + CloseText(specs))
  }

  /** Ids the parser can read back, and specifiers that end at their closing brace. */
  predicate Writable(p: Piece) {
    match p
    case Literal(_) => true
    case Replace(arg, specs) =>
      && (match arg
          case Auto => true
          case Index(n) => n <= INT_MAX
          case Name(t) => t != "" && IsNameStart(t[0]) && forall i | 0 <= i < |t| :: IsNameChar(t[i])
          case Bad(_) => false)
      && (specs.Some? ==> forall i | 0 <= i < |specs.value| :: specs.value[i] != '}')
  }

  function Render(pieces: seq<Piece>): string
    requires forall p | p in pieces :: Writable(p)
  {
    if pieces == [] then "" else PieceText(pieces[0]) + Render(pieces[1..])
  }

  /** A handler that accepts every argument and reads specifiers up to the closing brace. */
  ghost predicate Accepting(h: Handler, s: string) {
    && (forall log :: h.onId(log).Some? && h.onField(log))
    && (forall log: seq<Event> | |log| > 0 && log[|log| - 1].Specs? && log[|log| - 1].pos <= |s| ::
          h.onSpecs(log) == Some(Find(s, log[|log| - 1].pos, |s|, '}')))
  }

  /** The call that a field's close is, at `close`. */
  function CloseCall(id: int, specs: Option<string>, close: nat): Event {
    if specs.None? then Field(id, close) else Specs(id, close + 1)
  }

  /** The calls after a piece that begins at `at`. */
  function NextLog(h: Handler, x: Piece, at: nat, log: seq<Event>): seq<Event>
    requires Writable(x)
  {
    match x
    case Literal(t) => AddText(log, t)
    case Replace(arg, specs) =>
      var log1 := log + [IdEvent(arg)];
      var id := if h.onId(log1).Some? then h.onId(log1).value else 0;
      log1 + [CloseCall(id, specs, at + 1 + |ArgText(arg)|)]
  }

  /** The calls the pieces stand for, the first piece beginning at `at`. */
  function Calls(h: Handler, pieces: seq<Piece>, at: nat, log: seq<Event>): seq<Event>
    requires forall p | p in pieces :: Writable(p)
  {
    if pieces == [] then log
    else Calls(h, pieces[1..], at + |PieceText(pieces[0])|, NextLog(h, pieces[0], at, log))
  }

  // ---------------------------------------------------------------- argument ids

  lemma {:induction false} SpelledDecimal(n: nat)
    ensures Decimal(Spelled(n)) == n
    ensures Spelled(n)[0] == '0' ==> n == 0
  {
    var r := Spelled(n);
    if n >= 10 {
      SpelledDecimal(n / 10);
      assert r[..|r| - 1] == Spelled(n / 10);
    } else {
      assert r[..0] == "";
      assert Decimal(r) == Decimal(r[..0]) * 10 + Digit(r[0]);
    }
  }

  lemma {:induction false} DigitsEnd(s: string, p: nat, e: nat)
    requires p <= e <= |s| && (forall i | p <= i < e :: IsDigit(s[i])) && (e < |s| ==> !IsDigit(s[e]))
    ensures DigitEnd(s, p) == e
    decreases e - p
  {
    if p < e { DigitsEnd(s, p + 1, e); }
  }

  lemma {:induction false} NamesEnd(s: string, p: nat, e: nat)
    requires p <= e <= |s| && (forall i | p <= i < e :: IsNameChar(s[i])) && (e < |s| ==> !IsNameChar(s[e]))
    ensures NameEnd(s, p) == e
    decreases e - p
  {
    if p < e { NamesEnd(s, p + 1, e); }
  }

  /** The string reads t at p. */
  ghost predicate At(s: string, p: nat, t: string): (r: bool)
    ensures r ==> p + |t| <= |s|
  {
    p + |t| <= |s| && s[p..p + |t|] == t
  }

  lemma AtSplit(s: string, p: nat, a: string, b: string)
    requires At(s, p, a + b)
    ensures At(s, p, a) && At(s, p + |a|, b)
  {
    var all := s[p..p + |a + b|];
    assert s[p..p + |a|] == all[..|a|] && s[p + |a|..p + |a| + |b|] == all[|a|..];
  }

  lemma AtIndex(s: string, p: nat, t: string, i: nat)
    requires At(s, p, t) && i < |t|
    ensures p + i < |s| && s[p + i] == t[i]
  {
    assert s[p..p + |t|][i] == s[p + i];
  }

  /** An id spelled before its colon or closing brace is read back. */
  lemma ArgReadBack(s: string, b: nat, x: Piece)
    requires Writable(x) && x.Replace?
    requires At(s, b, ArgText(x.arg))
    requires var e := b + |ArgText(x.arg)|; e < |s| && (s[e] == '}' || s[e] == ':')
    ensures ArgId(s, b) == Parsed(x.arg, b + |ArgText(x.arg)|) && s[b] != '{'
  {
    match x.arg
    case Auto =>
    case Name(t) => NameReadBack(s, b, t);
    case Index(n) => IndexReadBack(s, b, n);
  }

  lemma NameReadBack(s: string, b: nat, t: string)
    requires t != "" && IsNameStart(t[0]) && forall i | 0 <= i < |t| :: IsNameChar(t[i])
    requires At(s, b, t) && b + |t| < |s| && (s[b + |t|] == '}' || s[b + |t|] == ':')
    ensures ArgId(s, b) == Parsed(Name(t), b + |t|) && s[b] != '{'
  {
    forall i | b <= i < b + |t| ensures s[i] == t[i - b] { AtIndex(s, b, t, i - b); }
    hide DigitEnd, Decimal;
    NamesEnd(s, b, b + |t|);
  }

  lemma IndexReadBack(s: string, b: nat, n: nat)
    requires n <= INT_MAX && At(s, b, Spelled(n))
    requires var e := b + |Spelled(n)|; e < |s| && (s[e] == '}' || s[e] == ':')
    ensures ArgId(s, b) == Parsed(Index(n), b + |Spelled(n)|) && s[b] != '{'
  {
    var t := Spelled(n);
    forall i | b <= i < b + |t| ensures s[i] == t[i - b] { AtIndex(s, b, t, i - b); }
    SpelledDecimal(n);
    if s[b] == '0' { assert t == "0"; }
    hide NameEnd, Spelled, Decimal;
    DigitsEnd(s, b, b + |t|);
  }

  // --------------------------------------------------------------------- scanning

  /** Giving pending text to the handler early changes nothing when parsing succeeds. */
  lemma {:induction false} FlushFrom(h: Handler, s: string, start: nat, mid: nat, p: nat, log: seq<Event>)
    requires start <= mid <= p <= |s| && ValidHandler(h, s)
    requires Scan(h, s, mid, p, AddText(log, s[start..mid])).Go?
    ensures Scan(h, s, start, p, log) == Scan(h, s, mid, p, AddText(log, s[start..mid]))
    decreases |s| - p
  {
    hide FieldAt, AddText;
    if p == |s| {
      AddTextTwice(log, s[start..mid], s[mid..]);
      assert s[start..mid] + s[mid..] == s[start..];
    } else if s[p] == '{' {
      AddTextTwice(log, s[start..mid], s[mid..p]);
      assert s[start..mid] + s[mid..p] == s[start..p];
    } else if s[p] == '}' {
      AddTextTwice(log, s[start..mid], s[mid..p + 1]);
      assert s[start..mid] + s[mid..p + 1] == s[start..p + 1];
    } else {
      FlushFrom(h, s, start, mid, p + 1, log);
    }
  }

  predicate IsBrace(c: char) { c == '{' || c == '}' }

  /** One character of text, escaped if it is a brace, with the text since `start` pending. */
  lemma CharRun(h: Handler, s: string, c: char, start: nat, p: nat, log: seq<Event>)
    requires ValidHandler(h, s) && start <= p && At(s, p, EscapedChar(c))
    ensures !IsBrace(c) ==> p + 1 <= |s| && Scan(h, s, start, p, log) == Scan(h, s, start, p + 1, log)
    ensures !IsBrace(c) ==> s[start..p + 1] == s[start..p] + [c]
    ensures IsBrace(c) ==> p + 2 <= |s|
    ensures IsBrace(c) ==>
              Scan(h, s, start, p, log) == Scan(h, s, p + 2, p + 2, AddText(AddText(log, s[start..p]), [c]))
  {
    hide ArgId, CloseField, AddText;
    AtIndex(s, p, EscapedChar(c), 0);
    assert s[start..p + 1] == s[start..p] + [s[p]];
    if IsBrace(c) {
      AtIndex(s, p, EscapedChar(c), 1);
      AddTextTwice(log, s[start..p], [c]);
    }
  }

  /**
   Literal text is read up to a point where what is still pending and what was given to the
   handler are together the text; after a brace nothing is pending.
   */
  lemma {:induction false} LiteralRun(h: Handler, s: string, t: string, start: nat, p: nat, log: seq<Event>)
    returns (start': nat, log': seq<Event>)
    requires ValidHandler(h, s) && start <= p && At(s, p, Escaped(t))
    ensures var q := p + |Escaped(t)|;
      && start' <= q && Scan(h, s, start, p, log) == Scan(h, s, start', q, log')
      && AddText(log', s[start'..q]) == AddText(AddText(log, s[start..p]), t)
      && (t != "" && IsBrace(t[|t| - 1]) ==> start' == q)
      && (t == "" ==> start' == start && log' == log)
    decreases |t|
  {
    hide Scan, AddText, ValidHandler, At, EscapedChar;
    var done := AddText(log, s[start..p]);
    if t == "" {
      AddNone(done);
      start', log' := start, log;
    } else {
      var c := t[0];
      AtSplit(s, p, EscapedChar(c), Escaped(t[1..]));
      CharRun(h, s, c, start, p, log);
      EscapedSize(c);
      AddTextTwice(done, [c], t[1..]);
      assert [c] + t[1..] == t;
      if IsBrace(c) {
        var given := AddText(done, [c]);
        start', log' := LiteralRun(h, s, t[1..], p + 2, p + 2, given);
        assert s[p + 2..p + 2] == "";
        AddNone(given);
      } else {
        AddTextTwice(log, s[start..p], [c]);
        start', log' := LiteralRun(h, s, t[1..], start, p + 1, log);
      }
    }
  }

  lemma EscapedSize(c: char)
    ensures |EscapedChar(c)| == if IsBrace(c) then 2 else 1
  {
  }

  lemma AddNone(log: seq<Event>)
    ensures AddText(log, "") == log
  {
  }

  lemma SpecsEnd(s: string, t: string, p: nat)
    requires At(s, p, ":" + (t + "}")) && forall i | 0 <= i < |t| :: t[i] != '}'
    ensures var e := p + 1 + |t|; s[p] == ':' && e < |s| && s[e] == '}' && Find(s, p + 1, |s|, '}') == e
  {
    hide At;
    AtSplit(s, p, ":", t + "}");
    AtIndex(s, p, ":", 0);
    AtSplit(s, p + 1, t, "}");
    AtIndex(s, p + 1 + |t|, "}", 0);
    forall i | p + 1 <= i < p + 1 + |t| ensures s[i] != '}' { AtIndex(s, p + 1, t, i - p - 1); }
  }

  lemma CloseRead(h: Handler, s: string, specs: Option<string>, p: nat, arg: int, log: seq<Event>)
    requires Accepting(h, s) && At(s, p, CloseText(specs))
    requires specs.Some? ==> forall i | 0 <= i < |specs.value| :: specs.value[i] != '}'
    ensures p < |s| && (s[p] == '}' || s[p] == ':')
    ensures CloseField(h, s, p, arg, log) == Go(log + [CloseCall(arg, specs, p)], p + |CloseText(specs)|)
  {
    hide At, Find;
    if specs.Some? {
      SpecsEnd(s, specs.value, p);
    } else {
      AtIndex(s, p, CloseText(specs), 0);
    }
  }

  lemma FieldParts(s: string, x: Piece, p: nat)
    requires Writable(x) && x.Replace? && At(s, p, PieceText(x))
    ensures At(s, p + 1, ArgText(x.arg)) && At(s, p + 1 + |ArgText(x.arg)|, CloseText(x.specs))
    ensures p < |s| && s[p] == '{' && |PieceText(x)| == 1 + |ArgText(x.arg)| + |CloseText(x.specs)|
  {
    hide At, ArgText, CloseText;
    var arg, close := ArgText(x.arg), CloseText(x.specs);
    AtSplit(s, p, "{", arg + close);
    AtIndex(s, p, "{", 0);
    AtSplit(s, p + 1, arg, close);
  }

  lemma FieldRead(h: Handler, s: string, x: Piece, p: nat, log: seq<Event>)
    requires Accepting(h, s) && Writable(x) && x.Replace? && At(s, p, PieceText(x))
    ensures p < |s| && s[p] == '{' && FieldAt(h, s, p, log) == Go(NextLog(h, x, p, log), p + |PieceText(x)|)
  {
    hide At, ArgId, CloseField, ArgText, CloseText, PieceText, CloseCall;
    var log1 := log + [IdEvent(x.arg)];
    var close := p + 1 + |ArgText(x.arg)|;
    FieldParts(s, x, p);
    CloseRead(h, s, x.specs, close, h.onId(log1).value, log1);
    ArgReadBack(s, p + 1, x);
  }

  /** A field gives pending text to the handler first. */
  lemma FieldRun(h: Handler, s: string, x: Piece, start: nat, p: nat, log: seq<Event>)
    requires ValidHandler(h, s) && Accepting(h, s) && Writable(x) && x.Replace? && start <= p && At(s, p, PieceText(x))
    ensures var q := p + |PieceText(x)|;
      Scan(h, s, start, p, log) == Scan(h, s, q, q, NextLog(h, x, p, AddText(log, s[start..p])))
  {
    hide FieldAt, AddText, At, PieceText, NextLog, Accepting, ValidHandler;
    FieldRead(h, s, x, p, AddText(log, s[start..p]));
  }

  /** No text is pending behind these pieces. */
  predicate Flushed(pieces: seq<Piece>) {
    pieces == []
    || match pieces[|pieces| - 1]
       case Literal(t) => t != "" && IsBrace(t[|t| - 1])
       case Replace(_, _) => true
  }

  lemma PieceRun(h: Handler, s: string, x: Piece, start: nat, p: nat, log: seq<Event>)
    returns (start': nat, log': seq<Event>)
    requires ValidHandler(h, s) && Accepting(h, s) && Writable(x) && start <= p && At(s, p, PieceText(x))
    ensures var q := p + |PieceText(x)|;
      && start' <= q && Scan(h, s, start, p, log) == Scan(h, s, start', q, log')
      && AddText(log', s[start'..q]) == NextLog(h, x, p, AddText(log, s[start..p]))
      && (Flushed([x]) ==> start' == q)
  {
    hide Scan, Accepting, ValidHandler, At, Escaped, AddText, ArgText, CloseText, Writable;
    if x.Literal? {
      start', log' := LiteralRun(h, s, x.text, start, p, log);
    } else {
      FieldRun(h, s, x, start, p, log);
      start', log' := p + |PieceText(x)|, NextLog(h, x, p, AddText(log, s[start..p]));
      assert s[start'..start'] == "";
      AddNone(log');
    }
  }

  /** Parsing reads the pieces from p on, whatever came before and whatever follows. */
  lemma {:induction false} PiecesRun(h: Handler, s: string, pieces: seq<Piece>, start: nat, p: nat, log: seq<Event>)
    returns (start': nat, log': seq<Event>)
    requires ValidHandler(h, s) && Accepting(h, s) && forall x | x in pieces :: Writable(x)
    requires start <= p && At(s, p, Render(pieces))
    ensures var q := p + |Render(pieces)|;
      && start' <= q && Scan(h, s, start, p, log) == Scan(h, s, start', q, log')
      && AddText(log', s[start'..q]) == Calls(h, pieces, p, AddText(log, s[start..p]))
      && (pieces != [] && Flushed(pieces) ==> start' == q)
      && (pieces == [] ==> start' == start && log' == log)
    decreases |pieces|
  {
    hide Scan, Accepting, ValidHandler, At, Writable, NextLog, PieceText, AddText;
    if pieces == [] {
      start', log' := start, log;
    } else {
      var x, rest := pieces[0], pieces[1..];
      var m := p + |PieceText(x)|;
      AtSplit(s, p, PieceText(x), Render(rest));
      var start1, log1 := PieceRun(h, s, x, start, p, log);
      start', log' := PiecesRun(h, s, rest, start1, m, log1);
    }
  }

  lemma ScanEnd(h: Handler, s: string, start: nat, log: seq<Event>)
    requires ValidHandler(h, s) && start <= |s|
    ensures Scan(h, s, start, |s|, log) == Go(AddText(log, s[start..|s|]), |s|)
  {
    assert s[start..] == s[start..|s|];
  }

  lemma AcceptingIsValid(h: Handler, s: string)
    requires Accepting(h, s)
    ensures ValidHandler(h, s)
  {
  }

  /** Rendering and then parsing gives back the pieces. */
  lemma RenderParse(h: Handler, pieces: seq<Piece>)
    requires forall x | x in pieces :: Writable(x)
    requires Accepting(h, Render(pieces))
    ensures ValidHandler(h, Render(pieces))
    ensures Scan(h, Render(pieces), 0, 0, []) == Go(Calls(h, pieces, 0, []), |Render(pieces)|)
  {
    hide Scan, Accepting, ValidHandler, Writable, Render, Calls, At, AddText;
    var s := Render(pieces);
    AcceptingIsValid(h, s);
    WholeAt(s);
    NonePending(s, 0, []);
    var start, log := PiecesRun(h, s, pieces, 0, 0, []);
    ScanEnd(h, s, start, log);
  }

  lemma WholeAt(s: string)
    ensures At(s, 0, s)
  {
    assert s[0..0 + |s|] == s;
  }

  lemma NonePending(s: string, p: nat, log: seq<Event>)
    requires p <= |s|
    ensures AddText(log, s[p..p]) == log
  {
    assert s[p..p] == "";
  }
}
