/**
 Which strings are format strings, and what is wrong with the others: every string is
 rendered from pieces, or from pieces and one flaw at which parsing ends with its error.
 */
module FormatFlaws {
  import opened Wrappers
  import opened FormatParser
  import opened FormatRender

  /** What can stand where parsing ends; `rest` is whatever follows. */
  datatype Flaw =
    | LoneClose(text: string, rest: string)
    | LoneOpen
    | BadStart(rest: string)
    | BadIndex(index: nat, rest: string)
    | HugeIndex(index: nat, rest: string)
    | OpenName(name: string, rest: string)
    | OpenSpecs(arg: Id, rest: string)

  predicate StartsWith(t: string, c: char) { t != "" && t[0] == c }

  predicate StartsWithDigit(t: string) { t != "" && IsDigit(t[0]) }

  /** An argument id can end before this. */
  predicate EndsId(t: string) { StartsWith(t, '}') || StartsWith(t, ':') }

  predicate Plain(t: string) { forall i | 0 <= i < |t| :: !IsBrace(t[i]) }

  predicate FlawOk(f: Flaw) {
    match f
    case LoneClose(text, rest) => Plain(text) && !StartsWith(rest, '}')
    case LoneOpen => true
    case BadStart(rest) => rest != "" && !IsBrace(rest[0]) && rest[0] != ':' && !IsNameChar(rest[0])
    case BadIndex(index, rest) => index <= INT_MAX && !EndsId(rest) && (index > 0 ==> !StartsWithDigit(rest))
    case HugeIndex(index, rest) => index > INT_MAX && !StartsWithDigit(rest)
    case OpenName(name, rest) =>
      Writable(Replace(Name(name), None)) && !EndsId(rest) && (rest != "" ==> !IsNameChar(rest[0]))
    case OpenSpecs(arg, rest) =>
      Writable(Replace(arg, None)) && forall i | 0 <= i < |rest| :: rest[i] != '}'
  }

  function FlawText(f: Flaw): string
    requires FlawOk(f)
  {
    match f
    case LoneClose(text, rest) => text + ("}" + rest)
    case LoneOpen => "{"
    case BadStart(rest) => "{" + rest
    case BadIndex(index, rest) => "{" + (Spelled(index) + rest)
    case HugeIndex(index, rest) => "{" + (Spelled(index) + rest)
    case OpenName(name, rest) => "{" + (name + rest)
    case OpenSpecs(arg, rest) => "{" + (ArgText(arg) + (":" + rest))
  }

  function FlawError(f: Flaw): Error {
    match f
    case LoneClose(_, _) => UnmatchedClose
    case LoneOpen => InvalidFormat
    case BadStart(_) => InvalidFormat
    case BadIndex(_, _) => InvalidFormat
    case HugeIndex(_, _) => TooBig
    case OpenName(_, _) => MissingClose
    case OpenSpecs(_, _) => UnknownSpecifier
  }

  /** The calls made by the time the flaw at `at` is found; text before a lone closing brace is not given. */
  function FlawCalls(h: Handler, f: Flaw, at: nat, log: seq<Event>): seq<Event>
    requires FlawOk(f)
  {
    match f
    case OpenName(name, _) => log + [NameId(name)]
    case OpenSpecs(arg, _) =>
      var log1 := log + [IdEvent(arg)];
      var id := if h.onId(log1).Some? then h.onId(log1).value else 0;
      log1 + [Specs(id, at + |ArgText(arg)| + 2)]
    case _ => log
  }

  /** s is rendered from the pieces. */
  ghost predicate Spells(s: string, pieces: seq<Piece>) {
    (forall x | x in pieces :: Writable(x)) && s == Render(pieces)
  }

  /**
   s is rendered from the pieces and the flaw; before a lone closing brace the pieces end
   where no text is pending.
   */
  ghost predicate FlawedBy(s: string, pieces: seq<Piece>, f: Flaw) {
    && (forall x | x in pieces :: Writable(x)) && FlawOk(f)
    && (f.LoneClose? ==> Flushed(pieces))
    && s == Render(pieces) + FlawText(f)
  }

  // ------------------------------------------------------------- flaws end parsing

  /** The digits of n at b, not followed by a digit. */
  lemma DigitsRead(s: string, b: nat, n: nat)
    requires At(s, b, Spelled(n))
    requires var e := b + |Spelled(n)|; n > 0 && e < |s| ==> !IsDigit(s[e])
    ensures var e := b + |Spelled(n)|;
      && b < e <= |s| && IsDigit(s[b]) && (s[b] == '0' <==> n == 0) && (n == 0 ==> e == b + 1)
      && (n > 0 ==> DigitEnd(s, b) == e && Decimal(s[b..e]) == n)
  {
    var t := Spelled(n);
    forall i | b <= i < b + |t| ensures s[i] == t[i - b] { AtIndex(s, b, t, i - b); }
    SpelledDecimal(n);
    assert n == 0 ==> t == "0";
    hide Spelled, Decimal;
    if n > 0 { DigitsEnd(s, b, b + |t|); }
  }

  /** An opening brace, then a, then b to the end of the string. */
  lemma OpenParts(s: string, p: nat, a: string, b: string)
    requires At(s, p, "{" + (a + b)) && p + 1 + |a| + |b| == |s|
    ensures s[p] == '{' && At(s, p + 1, a) && At(s, p + 1 + |a|, b)
    ensures var e := p + 1 + |a|; if b == "" then e == |s| else e < |s| && s[e] == b[0]
  {
    hide At;
    AtSplit(s, p, "{", a + b);
    AtIndex(s, p, "{", 0);
    AtSplit(s, p + 1, a, b);
    if b != "" { AtIndex(s, p + 1 + |a|, b, 0); }
  }

  /** A number at b that is not an index. */
  lemma NotAnIndex(s: string, b: nat, n: nat)
    requires At(s, b, Spelled(n))
    requires var e := b + |Spelled(n)|; n > 0 && e < |s| ==> !IsDigit(s[e])
    requires var e := b + |Spelled(n)|; n <= INT_MAX ==> e == |s| || (s[e] != '}' && s[e] != ':')
    ensures b < |s| && s[b] != '{' && ArgId(s, b) == Parsed(Bad(if n > INT_MAX then TooBig else InvalidFormat), b)
  {
    DigitsRead(s, b, n);
    hide At, Spelled, Decimal, DigitEnd, NameEnd;
  }

  lemma BadIndexStops(h: Handler, s: string, f: Flaw, p: nat, log: seq<Event>)
    requires FlawOk(f) && (f.BadIndex? || f.HugeIndex?) && At(s, p, FlawText(f)) && p + |FlawText(f)| == |s|
    ensures p < |s| && s[p] == '{' && FieldAt(h, s, p, log) == Stop(log, FlawError(f))
  {
    hide At, Spelled, ArgId, CloseField, AddText;
    OpenParts(s, p, Spelled(f.index), f.rest);
    NotAnIndex(s, p + 1, f.index);
  }

  lemma BadStartStops(h: Handler, s: string, f: Flaw, p: nat, log: seq<Event>)
    requires FlawOk(f) && (f.LoneOpen? || f.BadStart?) && At(s, p, FlawText(f)) && p + |FlawText(f)| == |s|
    ensures p < |s| && s[p] == '{' && FieldAt(h, s, p, log) == Stop(log, FlawError(f))
  {
    hide At, CloseField, AddText;
    AtIndex(s, p, FlawText(f), 0);
    if f.BadStart? { AtIndex(s, p, FlawText(f), 1); }
  }

  /** A name at b that no closing brace or colon follows. */
  lemma OpenNameRead(s: string, b: nat, t: string)
    requires t != "" && IsNameStart(t[0]) && forall i | 0 <= i < |t| :: IsNameChar(t[i])
    requires At(s, b, t) && (b + |t| < |s| ==> !IsNameChar(s[b + |t|]))
    ensures b < |s| && s[b] != '{' && ArgId(s, b) == Parsed(Name(t), b + |t|)
  {
    forall i | b <= i < b + |t| ensures s[i] == t[i - b] { AtIndex(s, b, t, i - b); }
    hide DigitEnd, Decimal;
    NamesEnd(s, b, b + |t|);
  }

  lemma OpenNameStops(h: Handler, s: string, f: Flaw, p: nat, log: seq<Event>)
    requires Accepting(h, s) && FlawOk(f) && f.OpenName? && At(s, p, FlawText(f)) && p + |FlawText(f)| == |s|
    ensures p < |s| && s[p] == '{' && FieldAt(h, s, p, log) == Stop(FlawCalls(h, f, p, log), FlawError(f))
  {
    hide At, ArgId, AddText;
    OpenParts(s, p, f.name, f.rest);
    OpenNameRead(s, p + 1, f.name);
  }

  lemma NoClose(s: string, p: nat, rest: string)
    requires At(s, p, ":" + rest) && p + 1 + |rest| == |s| && forall i | 0 <= i < |rest| :: rest[i] != '}'
    ensures s[p] == ':' && Find(s, p + 1, |s|, '}') == |s|
  {
    hide At;
    AtIndex(s, p, ":" + rest, 0);
    AtSplit(s, p, ":", rest);
    forall i | p + 1 <= i < |s| ensures s[i] != '}' { AtIndex(s, p + 1, rest, i - p - 1); }
  }

  lemma OpenSpecsStops(h: Handler, s: string, f: Flaw, p: nat, log: seq<Event>)
    requires Accepting(h, s) && FlawOk(f) && f.OpenSpecs? && At(s, p, FlawText(f)) && p + |FlawText(f)| == |s|
    ensures p < |s| && s[p] == '{' && FieldAt(h, s, p, log) == Stop(FlawCalls(h, f, p, log), FlawError(f))
  {
    hide At, ArgText, ArgId, Find, AddText;
    var e := p + 1 + |ArgText(f.arg)|;
    OpenParts(s, p, ArgText(f.arg), ":" + f.rest);
    NoClose(s, e, f.rest);
    ArgReadBack(s, p + 1, Replace(f.arg, None));
  }

  /** A flaw that opens with a brace ends parsing, pending text being given to the handler first. */
  lemma OpenFlawStops(h: Handler, s: string, f: Flaw, start: nat, p: nat, log: seq<Event>)
    requires ValidHandler(h, s) && Accepting(h, s) && start <= p
    requires FlawOk(f) && !f.LoneClose? && At(s, p, FlawText(f)) && p + |FlawText(f)| == |s|
    ensures Scan(h, s, start, p, log) == Stop(FlawCalls(h, f, p, AddText(log, s[start..p])), FlawError(f))
  {
    hide FieldAt, AddText, At, Accepting, ValidHandler, FlawText;
    var log1 := AddText(log, s[start..p]);
    match f {
      case OpenName(_, _) => OpenNameStops(h, s, f, p, log1);
      case OpenSpecs(_, _) => OpenSpecsStops(h, s, f, p, log1);
      case BadIndex(_, _) => BadIndexStops(h, s, f, p, log1);
      case HugeIndex(_, _) => BadIndexStops(h, s, f, p, log1);
      case _ => BadStartStops(h, s, f, p, log1);
    }
  }

  /** A lone closing brace ends parsing, and the text before it is lost. */
  lemma LoneCloseStops(h: Handler, s: string, f: Flaw, p: nat, log: seq<Event>)
    requires ValidHandler(h, s) && FlawOk(f) && f.LoneClose? && At(s, p, FlawText(f)) && p + |FlawText(f)| == |s|
    ensures Scan(h, s, p, p, log) == Stop(log, UnmatchedClose)
  {
    hide FieldAt, AddText;
    hide At;
    var q := p + |f.text|;
    AtSplit(s, p, f.text, "}" + f.rest);
    AtIndex(s, q, "}" + f.rest, 0);
    if f.rest != "" { AtIndex(s, q, "}" + f.rest, 1); }
    forall i | p <= i < q ensures !IsBrace(s[i]) { AtIndex(s, p, f.text, i - p); }
    SkipPlain(h, s, p, p, q, log);
  }

  /** Pieces and a flaw: parsing makes the calls of both and ends with the flaw's error. */
  lemma FlawedParse(h: Handler, s: string, pieces: seq<Piece>, f: Flaw)
    requires Accepting(h, s) && FlawedBy(s, pieces, f)
    ensures ValidHandler(h, s)
    ensures Scan(h, s, 0, 0, [])
         == Stop(FlawCalls(h, f, |Render(pieces)|, Calls(h, pieces, 0, [])), FlawError(f))
  {
    hide Scan, Accepting, ValidHandler, Writable, Render, Calls, At, AddText, FlawText, FlawCalls, FlawOk;
    hide Flushed;
    AcceptingIsValid(h, s);
    WholeAt(s);
    NonePending(s, 0, []);
    AtSplit(s, 0, Render(pieces), FlawText(f));
    var q := |Render(pieces)|;
    var start, log := PiecesRun(h, s, pieces, 0, 0, []);
    if f.LoneClose? {
      FlushedRun(pieces, start, q);
      NonePending(s, q, log);
      LoneCloseStops(h, s, f, q, log);
      LoneCalls(h, f, q, log);
    } else {
      OpenFlawStops(h, s, f, start, q, log);
    }
  }

  lemma FlushedRun(pieces: seq<Piece>, start: nat, q: nat)
    requires forall x | x in pieces :: Writable(x)
    requires q == |Render(pieces)| && (pieces == [] ==> start == 0) && (pieces != [] ==> start == q)
    ensures start == q
  {
  }

  lemma LoneCalls(h: Handler, f: Flaw, at: nat, log: seq<Event>)
    requires FlawOk(f) && f.LoneClose?
    ensures FlawCalls(h, f, at, log) == log
  {
  }

  // ------------------------------------------------------- every string is one or the other

  /** Digits without a leading zero are how their number is spelled. */
  lemma {:induction false} DigitsSpelled(t: string)
    requires t != "" && (forall i | 0 <= i < |t| :: IsDigit(t[i])) && t[0] != '0'
    ensures Decimal(t) > 0 && Spelled(Decimal(t)) == t
    decreases |t|
  {
    var n := |t| - 1;
    var u, d := t[..n], Digit(t[n]);
    assert t == u + [t[n]];
    if n == 0 {
      assert Decimal(u) == 0;
    } else {
      DigitsSpelled(u);
      assert (10 * Decimal(u) + d) / 10 == Decimal(u) && (10 * Decimal(u) + d) % 10 == d;
    }
  }

  /** What is taken off the front of a string that opens a field. */
  datatype Taken = Got(piece: Piece, rest: string) | Broken(flaw: Flaw)

  ghost predicate TakenFrom(s: string, r: Taken) {
    match r
    case Got(piece, rest) => Writable(piece) && piece.Replace? && s == PieceText(piece) + rest
    case Broken(flaw) => FlawOk(flaw) && !flaw.LoneClose? && s == FlawText(flaw)
  }

  /** s opens a field, reads the argument id, and goes on at e. */
  ghost predicate IdUpTo(s: string, arg: Id, e: nat): (r: bool)
    ensures r ==> 1 <= e <= |s|
  {
    Writable(Replace(arg, None)) && 1 <= e <= |s| && s == "{" + (ArgText(arg) + s[e..])
  }

  lemma TakeParts(s: string, arg: Id, e: nat, specs: Option<string>, rest: string)
    requires IdUpTo(s, arg, e) && s[e..] == CloseText(specs) + rest
    requires specs.Some? ==> forall i | 0 <= i < |specs.value| :: specs.value[i] != '}'
    ensures TakenFrom(s, Got(Replace(arg, specs), rest))
  {
    hide ArgText, CloseText;
    Regroup(ArgText(arg), CloseText(specs), rest);
  }

  lemma SplitAtClose(t: string, k: nat)
    requires k < |t| && t[k] == '}'
    ensures t == (t[..k] + "}") + t[k + 1..]
  {
  }

  lemma TakeSpecs(s: string, arg: Id, e: nat) returns (r: Taken)
    requires IdUpTo(s, arg, e) && e < |s| && s[e] == ':'
    ensures TakenFrom(s, r)
  {
    hide ArgText, PieceText, Writable;
    var t := s[e + 1..];
    assert s[e..] == ":" + t;
    var k := Find(t, 0, |t|, '}');
    if k == |t| {
      r := Broken(OpenSpecs(arg, t));
    } else {
      SplitAtClose(t, k);
      Shift(":", t[..k] + "}", t[k + 1..]);
      TakeParts(s, arg, e, Some(t[..k]), t[k + 1..]);
      r := Got(Replace(arg, Some(t[..k])), t[k + 1..]);
    }
  }

  lemma Shift(a: string, b: string, c: string)
    ensures a + (b + c) == (a + b) + c
  {
  }

  /** Behind an argument id, at a closing brace or a colon. */
  lemma TakeClose(s: string, arg: Id, e: nat) returns (r: Taken)
    requires IdUpTo(s, arg, e) && EndsId(s[e..])
    ensures TakenFrom(s, r)
  {
    hide IdUpTo, TakenFrom;
    if s[e..][0] == '}' {
      var t := s[e..];
      assert t == "}" + t[1..];
      TakeParts(s, arg, e, None, t[1..]);
      r := Got(Replace(arg, None), t[1..]);
    } else {
      r := TakeSpecs(s, arg, e);
    }
  }

  lemma Regroup(a: string, b: string, rest: string)
    ensures "{" + (a + (b + rest)) == ("{" + (a + b)) + rest
  {
  }

  /** The number behind the opening brace, and where it ends. */
  lemma NumberHere(s: string) returns (n: nat, e: nat)
    requires |s| > 1 && s[0] == '{' && IsDigit(s[1])
    ensures 2 <= e <= |s| && s == "{" + (Spelled(n) + s[e..]) && (n > 0 ==> !StartsWithDigit(s[e..]))
  {
    if s[1] == '0' {
      n, e := 0, 2;
      assert s[1..e] == "0" == Spelled(0);
    } else {
      e := DigitEnd(s, 1);
      n := Decimal(s[1..e]);
      DigitsSpelled(s[1..e]);
    }
    hide Spelled, Decimal;
    assert s == "{" + (s[1..e] + s[e..]);
  }

  lemma TakeNumber(s: string) returns (r: Taken)
    requires |s| > 1 && s[0] == '{' && IsDigit(s[1])
    ensures TakenFrom(s, r)
  {
    hide Spelled;
    var n, e := NumberHere(s);
    if n > INT_MAX {
      r := Broken(HugeIndex(n, s[e..]));
    } else if !EndsId(s[e..]) {
      r := Broken(BadIndex(n, s[e..]));
    } else {
      r := TakeClose(s, Index(n), e);
    }
  }

  lemma TakeName(s: string) returns (r: Taken)
    requires |s| > 1 && s[0] == '{' && IsNameStart(s[1])
    ensures TakenFrom(s, r)
  {
    var e := NameEnd(s, 1);
    var name := s[1..e];
    assert s == "{" + (name + s[e..]);
    assert Writable(Replace(Name(name), None));
    if EndsId(s[e..]) {
      r := TakeClose(s, Name(name), e);
    } else {
      r := Broken(OpenName(name, s[e..]));
    }
  }

  lemma TakeField(s: string) returns (r: Taken)
    requires s != "" && s[0] == '{' && (|s| > 1 ==> s[1] != '{')
    ensures TakenFrom(s, r)
  {
    if |s| == 1 {
      r := Broken(LoneOpen);
    } else if s[1] == '}' || s[1] == ':' {
      assert s == "{" + ("" + s[1..]);
      r := TakeClose(s, Auto, 1);
    } else if IsDigit(s[1]) {
      r := TakeNumber(s);
    } else if IsNameStart(s[1]) {
      r := TakeName(s);
    } else {
      assert s == "{" + s[1..];
      r := Broken(BadStart(s[1..]));
    }
  }

  /** What a string is made of. */
  datatype Reading = Whole(pieces: seq<Piece>) | Flawed(pieces: seq<Piece>, flaw: Flaw)

  ghost predicate ReadAs(s: string, r: Reading) {
    if r.Whole? then Spells(s, r.pieces) else FlawedBy(s, r.pieces, r.flaw)
  }

  /** A piece in front; a piece that ends where no text is pending may stand before a lone closing brace. */
  lemma Prepend(s: string, x: Piece, rest: string, r: Reading) returns (r': Reading)
    requires Writable(x) && s == PieceText(x) + rest && ReadAs(rest, r)
    requires r.Flawed? && r.flaw.LoneClose? && r.pieces == [] ==> Flushed([x])
    ensures ReadAs(s, r') && r'.pieces == [x] + r.pieces
  {
    hide Writable, PieceText, FlawText, FlawOk;
    var pieces := [x] + r.pieces;
    assert pieces[1..] == r.pieces;
    assert Render(pieces) == PieceText(x) + Render(r.pieces);
    r' := if r.Whole? then Whole(pieces) else Flawed(pieces, r.flaw);
    if r.Flawed? {
      assert PieceText(x) + (Render(r.pieces) + FlawText(r.flaw)) == PieceText(x) + Render(r.pieces) + FlawText(r.flaw);
    }
  }

  lemma EscapedOne(c: char)
    ensures Escaped([c]) == EscapedChar(c)
  {
    assert [c][1..] == "";
  }

  /** A character of text in front; before a lone closing brace it joins the text that is lost. */
  lemma PrependChar(s: string, c: char, rest: string, r: Reading) returns (r': Reading)
    requires s == EscapedChar(c) + rest && ReadAs(rest, r)
    ensures ReadAs(s, r')
  {
    EscapedOne(c);
    if r.Flawed? && r.flaw.LoneClose? && r.pieces == [] && !IsBrace(c) {
      r' := Flawed([], LoneClose([c] + r.flaw.text, r.flaw.rest));
      assert s == [c] + r.flaw.text + ("}" + r.flaw.rest);
    } else {
      r' := Prepend(s, Literal([c]), rest, r);
    }
  }

  /** Every string is rendered from pieces, or from pieces and a flaw. */
  lemma {:induction false} Decompose(s: string) returns (r: Reading)
    ensures ReadAs(s, r)
    decreases |s|
  {
    hide PieceText, FlawText, FlawOk, Writable;
    if s == "" {
      r := Whole([]);
    } else if IsBrace(s[0]) && |s| > 1 && s[1] == s[0] {
      var rest := Decompose(s[2..]);
      assert s == EscapedChar(s[0]) + s[2..];
      r := PrependChar(s, s[0], s[2..], rest);
    } else if s[0] == '{' {
      var taken := TakeField(s);
      if taken.Broken? {
        r := Flawed([], taken.flaw);
      } else {
        PieceSize(taken.piece);
        var rest := Decompose(taken.rest);
        r := Prepend(s, taken.piece, taken.rest, rest);
      }
    } else if s[0] == '}' {
      r := Flawed([], LoneClose("", s[1..]));
      LoneCloseHere(s);
    } else {
      var rest := Decompose(s[1..]);
      assert s == EscapedChar(s[0]) + s[1..];
      r := PrependChar(s, s[0], s[1..], rest);
    }
  }

  lemma PieceSize(x: Piece)
    requires Writable(x) && x.Replace?
    ensures |PieceText(x)| > 0
  {
  }

  lemma LoneCloseHere(s: string)
    requires s != "" && s[0] == '}' && (|s| > 1 ==> s[1] != '}')
    ensures FlawedBy(s, [], LoneClose("", s[1..]))
  {
    assert s == "" + ("}" + s[1..]);
  }

  // -------------------------------------------------------------------- the grammar

  /** Parsing succeeds exactly on the strings rendered from pieces. */
  lemma ParsesIff(h: Handler, s: string)
    requires Accepting(h, s)
    ensures ValidHandler(h, s)
    ensures Scan(h, s, 0, 0, []).Go? <==> exists pieces :: Spells(s, pieces)
  {
    hide Scan, Accepting, ValidHandler, Writable, Render, Calls, FlawText, FlawCalls, FlawOk;
    AcceptingIsValid(h, s);
    forall pieces | Spells(s, pieces) ensures Scan(h, s, 0, 0, []).Go? { RenderParse(h, pieces); }
    var r := Decompose(s);
    if r.Flawed? { FlawedParse(h, s, r.pieces, r.flaw); }
  }

  /**
   Parsing ends with an error exactly on the strings with the flaw of that error behind
   pieces, after the calls of these pieces and of the flaw.
   */
  lemma FailsIff(h: Handler, s: string, log: seq<Event>, e: Error)
    requires Accepting(h, s)
    ensures ValidHandler(h, s)
    ensures Scan(h, s, 0, 0, []) == Stop(log, e) <==>
            exists pieces, f ::
              && FlawedBy(s, pieces, f) && e == FlawError(f)
              && log == FlawCalls(h, f, |Render(pieces)|, Calls(h, pieces, 0, []))
  {
    hide Scan, Accepting, ValidHandler, Writable, Render, Calls, FlawText, FlawCalls, FlawOk;
    AcceptingIsValid(h, s);
    forall pieces, f | FlawedBy(s, pieces, f)
      ensures Scan(h, s, 0, 0, []) == Stop(FlawCalls(h, f, |Render(pieces)|, Calls(h, pieces, 0, [])), FlawError(f))
    {
      FlawedParse(h, s, pieces, f);
    }
    var r := Decompose(s);
    if r.Whole? { RenderParse(h, r.pieces); }
  }

  // --------------------------------------------------------------- handlers that throw

  predicate IsId(e: Event) { e.AutoId? || e.IndexId? || e.NameId? }

  /** The handler answers the last of these calls. */
  ghost predicate LastAnswered(h: Handler, log: seq<Event>)
    requires log != []
  {
    var e := log[|log| - 1];
    (IsId(e) ==> h.onId(log).Some?) && (e.Field? ==> h.onField(log)) && (e.Specs? ==> h.onSpecs(log).Some?)
  }

  ghost predicate Answered(h: Handler, log: seq<Event>) {
    forall k | 0 < k <= |log| :: LastAnswered(h, log[..k])
  }

  /** Every call was answered but the last, at which the handler threw. */
  ghost predicate Refused(h: Handler, log: seq<Event>) {
    log != [] && Answered(h, log[..|log| - 1]) && !LastAnswered(h, log)
  }

  ghost predicate Obeyed(h: Handler, r: Step) {
    if r.Stop? && r.error.Thrown? then Refused(h, r.log) else Answered(h, r.log)
  }

  lemma AnsweredSnoc(h: Handler, log: seq<Event>, e: Event)
    requires Answered(h, log)
    ensures LastAnswered(h, log + [e]) ==> Answered(h, log + [e])
    ensures !LastAnswered(h, log + [e]) ==> Refused(h, log + [e])
  {
    var log' := log + [e];
    assert log'[..|log|] == log && log'[..|log'|] == log';
    forall k | 0 < k <= |log| ensures LastAnswered(h, log'[..k]) { assert log'[..k] == log[..k]; }
  }

  lemma AnsweredText(h: Handler, log: seq<Event>, t: string)
    requires Answered(h, log)
    ensures Answered(h, AddText(log, t))
  {
    if t != "" {
      if |log| > 0 && log[|log| - 1].Text? {
        var n := |log| - 1;
        assert forall k | 0 < k <= n :: log[..n][..k] == log[..k];
        AnsweredSnoc(h, log[..n], Text(log[n].text + t));
      } else {
        AnsweredSnoc(h, log, Text(t));
      }
    }
  }

  lemma CloseObeyed(h: Handler, s: string, p: nat, arg: int, log: seq<Event>)
    requires p <= |s| && Answered(h, log)
    ensures Obeyed(h, CloseField(h, s, p, arg, log))
  {
    hide Answered;
    if p < |s| && s[p] == '}' { AnsweredSnoc(h, log, Field(arg, p)); }
    else if p < |s| && s[p] == ':' { AnsweredSnoc(h, log, Specs(arg, p + 1)); }
  }

  lemma BadIdErrors(s: string, b: nat)
    requires b < |s|
    ensures ArgId(s, b).id.Bad? ==> ArgId(s, b).id.error.TooBig? || ArgId(s, b).id.error.InvalidFormat?
  {
  }

  lemma FieldObeyed(h: Handler, s: string, b: nat, log: seq<Event>)
    requires b < |s| && Answered(h, log)
    ensures Obeyed(h, FieldAt(h, s, b, log))
  {
    hide Answered, ArgId, CloseField, AddText;
    AnsweredText(h, log, "{");
    if b + 1 < |s| {
      var parsed := ArgId(s, b + 1);
      BadIdErrors(s, b + 1);
      if !parsed.id.Bad? {
        var log' := log + [IdEvent(parsed.id)];
        AnsweredSnoc(h, log, IdEvent(parsed.id));
        if h.onId(log').Some? { CloseObeyed(h, s, parsed.pos, h.onId(log').value, log'); }
      }
    }
  }

  lemma {:induction false} ScanObeyed(h: Handler, s: string, start: nat, p: nat, log: seq<Event>)
    requires start <= p <= |s| && ValidHandler(h, s) && Answered(h, log)
    ensures Obeyed(h, Scan(h, s, start, p, log))
    decreases |s| - p
  {
    hide Answered, FieldAt, AddText, ValidHandler;
    if p == |s| {
      AnsweredText(h, log, s[start..]);
    } else if s[p] == '{' {
      var log1 := AddText(log, s[start..p]);
      AnsweredText(h, log, s[start..p]);
      FieldObeyed(h, s, p, log1);
      var field := FieldAt(h, s, p, log1);
      if field.Go? { ScanObeyed(h, s, field.pos, field.pos, field.log); }
    } else if s[p] == '}' {
      AnsweredText(h, log, s[start..p + 1]);
      if p + 1 < |s| && s[p + 1] == '}' { ScanObeyed(h, s, p + 2, p + 2, AddText(log, s[start..p + 1])); }
    } else {
      ScanObeyed(h, s, start, p + 1, log);
    }
  }

  /**
   For every handler: parsing ends with the handler's exception exactly when the last call
   is one it threw at; all other calls it answered.
   */
  lemma ThrownIff(h: Handler, s: string)
    requires ValidHandler(h, s)
    ensures var r := Scan(h, s, 0, 0, []);
      && (r.Stop? && r.error.Thrown? <==> Refused(h, r.log))
      && (!(r.Stop? && r.error.Thrown?) <==> Answered(h, r.log))
  {
    ScanObeyed(h, s, 0, 0, []);
    var log := Scan(h, s, 0, 0, []).log;
    if Refused(h, log) { assert log[..|log|] == log; }
  }
}
