/**
  Link headers (RFC 8288, section 3): the splitter that cuts a header value at its
  top-level commas, the parser of one rel="alternate" link, and the printer of such links.
*/
module LinkHeader {
  import opened Wrappers
  import opened LinkParameters
  import opened Text

  // ---------- the grammar: what being inside a quoted string means ----------

  /** One element of a quoted string: a character, or a backslash and any character. */
  datatype Item = Chr(c: char) | Esc(c: char)

  /** A header value is read as plain characters and complete quoted strings. */
  datatype Piece = Plain(c: char) | Quoted(items: seq<Item>)

  predicate ItemOk(i: Item) {
    i.Chr? ==> i.c != '"' && i.c != '\\'
  }

  predicate PieceOk(p: Piece) {
    match p
    case Plain(c) => c != '"'
    case Quoted(items) => forall i :: i in items ==> ItemOk(i)
  }

  function RenderItems(items: seq<Item>): string {
    if items == [] then ""
    else (if items[0].Chr? then [items[0].c] else ['\\', items[0].c]) + RenderItems(items[1..])
  }

  function RenderPiece(p: Piece): string {
    match p
    case Plain(c) => [c]
    case Quoted(items) => ['"'] + RenderItems(items) + ['"']
  }

  function Render(pieces: seq<Piece>): string {
    if pieces == [] then "" else RenderPiece(pieces[0]) + Render(pieces[1..])
  }

  ghost predicate ReadsAs(u: string, pieces: seq<Piece>) {
    (forall p :: p in pieces ==> PieceOk(p)) && Render(pieces) == u
  }

  /** What follows `u` is outside every quoted string. */
  ghost predicate Outside(u: string) {
    exists pieces :: ReadsAs(u, pieces)
  }

  /** What follows `u` is inside a quoted string, after a pending backslash or not. */
  ghost predicate Inside(u: string, escaped: bool) {
    exists pieces, items :: OpenQuote(u, escaped, pieces, items)
  }

  ghost predicate OpenQuote(u: string, escaped: bool, pieces: seq<Piece>, items: seq<Item>) {
    && (forall p :: p in pieces ==> PieceOk(p)) && (forall i :: i in items ==> ItemOk(i))
    && u == Render(pieces) + ['"'] + RenderItems(items) + if escaped then ['\\'] else []
  }

  // ---------- the scanner ----------

  datatype Scan = Scan(inQuote: bool, escaped: bool)

  const START := Scan(false, false)

  function Step(q: Scan, c: char): Scan {
    if c == '\\' then (if q.inQuote then Scan(true, !q.escaped) else Scan(false, false))
    else if c == '"' then Scan(if q.escaped then q.inQuote else !q.inQuote, false)
    else Scan(q.inQuote, false)
  }

  function ScanFrom(q: Scan, v: string): Scan
    decreases |v|
  {
    if v == "" then q else ScanFrom(Step(q, v[0]), v[1..])
  }

  lemma {:induction false} ScanConcat(q: Scan, u: string, w: string)
    ensures ScanFrom(q, u + w) == ScanFrom(ScanFrom(q, u), w)
    decreases |u|
  {
    if u == "" {
      assert u + w == w;
    } else {
      assert (u + w)[1..] == u[1..] + w;
      ScanConcat(Step(q, u[0]), u[1..], w);
    }
  }

  lemma ScanOfItem(item: Item)
    requires ItemOk(item)
    ensures ScanFrom(Scan(true, false), if item.Chr? then [item.c] else ['\\', item.c]) == Scan(true, false)
  {
    if item.Esc? {
      assert ['\\', item.c] == ['\\'] + [item.c];
      ScanConcat(Scan(true, false), ['\\'], [item.c]);
    }
  }

  lemma {:induction false} ItemsStayInside(items: seq<Item>)
    requires forall i :: i in items ==> ItemOk(i)
    ensures ScanFrom(Scan(true, false), RenderItems(items)) == Scan(true, false)
  {
    if items != [] {
      var first := if items[0].Chr? then [items[0].c] else ['\\', items[0].c];
      ItemsStayInside(items[1..]);
      ScanConcat(Scan(true, false), first, RenderItems(items[1..]));
      assert items[0] in items;
      ScanOfItem(items[0]);
    }
  }

  lemma PieceStaysOutside(p: Piece)
    requires PieceOk(p)
    ensures ScanFrom(START, RenderPiece(p)) == START
  {
    if p.Quoted? {
      var body := RenderItems(p.items);
      ScanConcat(START, ['"'] + body, ['"']);
      ScanConcat(START, ['"'], body);
      ItemsStayInside(p.items);
    }
  }

  lemma {:induction false} PiecesStayOutside(pieces: seq<Piece>)
    requires forall p :: p in pieces ==> PieceOk(p)
    ensures ScanFrom(START, Render(pieces)) == START
  {
    if pieces != [] {
      PieceStaysOutside(pieces[0]);
      PiecesStayOutside(pieces[1..]);
      ScanConcat(START, RenderPiece(pieces[0]), Render(pieces[1..]));
    }
  }

  lemma {:induction false} RenderConcat(a: seq<Piece>, b: seq<Piece>)
    ensures Render(a + b) == Render(a) + Render(b)
  {
    if a == [] {
      assert a + b == b;
    } else {
      assert (a + b)[1..] == a[1..] + b;
      RenderConcat(a[1..], b);
    }
  }

  lemma {:induction false} RenderItemsConcat(a: seq<Item>, b: seq<Item>)
    ensures RenderItems(a + b) == RenderItems(a) + RenderItems(b)
  {
    if a == [] {
      assert a + b == b;
    } else {
      assert (a + b)[1..] == a[1..] + b;
      RenderItemsConcat(a[1..], b);
    }
  }

  ghost predicate Located(u: string, q: Scan) {
    if q.inQuote then Inside(u, q.escaped) else !q.escaped && Outside(u)
  }

  lemma OutsideGrows(u: string, c: char)
    requires Outside(u)
    ensures Located(u + [c], Step(START, c))
  {
    var pieces :| ReadsAs(u, pieces);
    if c == '"' {
      assert OpenQuote(u + [c], false, pieces, []);
    } else {
      RenderConcat(pieces, [Plain(c)]);
      assert ReadsAs(u + [c], pieces + [Plain(c)]);
    }
  }

  lemma Append4(a: string, b: string, c: string, d: string)
    ensures a + b + c + d == a + (b + c + d)
  {
  }

  lemma QuoteCloses(u: string, pieces: seq<Piece>, items: seq<Item>)
    requires OpenQuote(u, false, pieces, items)
    ensures Outside(u + ['"'])
  {
    var closed := Quoted(items);
    Append4(Render(pieces), ['"'], RenderItems(items), ['"']);
    assert u + ['"'] == Render(pieces) + RenderPiece(closed);
    RenderConcat(pieces, [closed]);
    assert Render([closed]) == RenderPiece(closed) by {
      assert RenderPiece(closed) + "" == RenderPiece(closed);
    }
    assert ReadsAs(u + ['"'], pieces + [closed]);
  }

  lemma ItemGrows(u: string, escaped: bool, pieces: seq<Piece>, items: seq<Item>, c: char)
    requires OpenQuote(u, escaped, pieces, items) && (escaped || (c != '"' && c != '\\'))
    ensures Inside(u + [c], false)
  {
    var item := if escaped then Esc(c) else Chr(c);
    RenderItemsConcat(items, [item]);
    assert RenderItems([item]) == (if escaped then ['\\', c] else [c]) + [];
    assert u + [c] == Render(pieces) + ['"'] + RenderItems(items + [item]);
    assert OpenQuote(u + [c], false, pieces, items + [item]);
  }

  lemma InsideGrows(u: string, escaped: bool, c: char)
    requires Inside(u, escaped)
    ensures Located(u + [c], Step(Scan(true, escaped), c))
  {
    var pieces, items :| OpenQuote(u, escaped, pieces, items);
    if !escaped && c == '"' {
      QuoteCloses(u, pieces, items);
    } else if !escaped && c == '\\' {
      assert OpenQuote(u + [c], true, pieces, items);
    } else {
      ItemGrows(u, escaped, pieces, items, c);
    }
  }

  lemma {:induction false} ScanLocates(u: string)
    ensures Located(u, ScanFrom(START, u))
  {
    if u == "" {
      assert ReadsAs("", []);
    } else {
      var n := |u| - 1;
      ScanLocates(u[..n]);
      assert u == u[..n] + [u[n]];
      ScanConcat(START, u[..n], [u[n]]);
      var q := ScanFrom(START, u[..n]);
      if q.inQuote { InsideGrows(u[..n], q.escaped, u[n]); } else { OutsideGrows(u[..n], u[n]); }
    }
  }

  /** The scanner's flag agrees with the grammar at every position of every string. */
  lemma ScannerIsGrammar(u: string)
    ensures !ScanFrom(START, u).inQuote <==> Outside(u)
  {
    ScanLocates(u);
    if Outside(u) {
      var pieces :| ReadsAs(u, pieces);
      PiecesStayOutside(pieces);
    }
  }

  // ---------- the splitter ----------

  /** The untrimmed pieces between the commas met outside quotes, starting in state `q`. */
  function RawFrom(q: Scan, v: string): (parts: seq<string>)
    ensures |parts| > 0
    decreases |v|
  {
    if v == "" then [""]
    else
      var rest := RawFrom(Step(q, v[0]), v[1..]);
      if v[0] == ',' && !q.inQuote then [""] + rest else Prepend([v[0]], rest)
  }

  function Prepend(s: string, parts: seq<string>): seq<string>
    requires |parts| > 0
  {
    [s + parts[0]] + parts[1..]
  }

  function RawParts(v: string): seq<string> {
    RawFrom(START, v)
  }

  function TrimAll(parts: seq<string>): seq<string> {
    seq(|parts|, i requires 0 <= i < |parts| => TrimSpace(parts[i]))
  }

  lemma PrependTwice(a: string, b: string, parts: seq<string>)
    requires |parts| > 0
    ensures Prepend(a, Prepend(b, parts)) == Prepend(a + b, parts)
    ensures Prepend("", parts) == parts
  {
    assert a + (b + parts[0]) == (a + b) + parts[0];
    assert "" + parts[0] == parts[0];
  }

  /** What is left of the split after `i` characters, with an unfinished piece begun at `start`. */
  function Remaining(v: string, start: nat, i: nat, q: Scan): seq<string>
    requires start <= i <= |v|
  {
    Prepend(v[start..i], RawFrom(q, v[i..]))
  }

  lemma RemainingStep(v: string, start: nat, i: nat, q: Scan)
    requires start <= i < |v|
    ensures Remaining(v, start, i, q) ==
      if v[i] == ',' && !q.inQuote
      then [v[start..i]] + Remaining(v, i + 1, i + 1, Step(q, v[i]))
      else Remaining(v, start, i + 1, Step(q, v[i]))
  {
    var rest := RawFrom(Step(q, v[i]), v[i+1..]);
    assert v[i..][1..] == v[i+1..];
    if v[i] == ',' && !q.inQuote {
      assert v[i+1..i+1] == "";
      PrependTwice("", "", rest);
      assert v[start..i] + "" == v[start..i];
    } else {
      assert v[start..i+1] == v[start..i] + [v[i]];
      PrependTwice(v[start..i], [v[i]], rest);
    }
  }

  lemma RemainingDone(v: string, start: nat, q: Scan)
    requires start <= |v|
    ensures Remaining(v, start, |v|, q) == [v[start..]]
  {
    assert v[|v|..] == "" && v[start..|v|] == v[start..];
    assert v[start..] + "" == v[start..];
  }

  lemma TrimAllSnoc(parts: seq<string>, part: string)
    ensures TrimAll(parts + [part]) == TrimAll(parts) + [TrimSpace(part)]
  {
  }

  lemma AppendOne<T>(a: seq<T>, x: T, b: seq<T>)
    ensures a + ([x] + b) == (a + [x]) + b
  {
  }

  /** `tail` is what the split still produces: an unfinished piece begun at `start`, and the rest. */
  ghost predicate Pending(v: string, start: nat, i: nat, q: Scan, tail: seq<string>) {
    start <= i <= |v| && tail == Remaining(v, start, i, q)
  }

  lemma PendingStep(v: string, start: nat, i: nat, q: Scan, tail: seq<string>) returns (tail': seq<string>)
    requires i < |v| && Pending(v, start, i, q, tail)
    ensures if v[i] == ',' && !q.inQuote
      then Pending(v, i + 1, i + 1, Step(q, v[i]), tail') && tail == [v[start..i]] + tail'
      else Pending(v, start, i + 1, Step(q, v[i]), tail') && tail == tail'
  {
    RemainingStep(v, start, i, q);
    tail' := if v[i] == ',' && !q.inQuote then Remaining(v, i + 1, i + 1, Step(q, v[i])) else tail;
  }

  lemma PendingStarts(v: string) returns (tail: seq<string>)
    ensures tail == RawParts(v) && Pending(v, 0, 0, START, tail)
  {
    tail := RawParts(v);
    assert v[..0] == "" && v[0..] == v;
    PrependTwice("", "", tail);
  }

  lemma PendingEnds(v: string, start: nat, q: Scan, tail: seq<string>)
    requires Pending(v, start, |v|, q, tail)
    ensures tail == [v[start..]]
  {
    RemainingDone(v, start, q);
  }

  method SplitLinkHeaderValues(v: string) returns (parts: seq<string>)
    ensures parts == TrimAll(RawParts(v))
  {
    parts := [];
    var start, inQuote, escaped := 0, false, false;
    ghost var raw: seq<string> := [];
    ghost var tail := PendingStarts(v);
    ghost var whole := tail;
    for i := 0 to |v|
      invariant start <= i
      invariant parts == TrimAll(raw) && whole == raw + tail
      invariant Pending(v, start, i, Scan(inQuote, escaped), tail)
    {
      tail := PendingStep(v, start, i, Scan(inQuote, escaped), tail);
      if v[i] == '\\' {
        if inQuote {
          escaped := !escaped;
          continue;
        }
        escaped := false;
      } else if v[i] == '"' {
        if !escaped {
          inQuote := !inQuote;
        }
        escaped := false;
      } else if v[i] == ',' {
        escaped := false;
        if inQuote {
          continue;
        }
        parts := parts + [TrimSpace(v[start..i])];
        TrimAllSnoc(raw, v[start..i]);
        AppendOne(raw, v[start..i], tail);
        raw := raw + [v[start..i]];
        start := i + 1;
      } else {
        escaped := false;
      }
    }
    parts := parts + [TrimSpace(v[start..])];
    PendingEnds(v, start, Scan(inQuote, escaped), tail);
    TrimAllSnoc(raw, v[start..]);
  }

  lemma {:induction false} RawRejoins(q: Scan, v: string)
    ensures Join(RawFrom(q, v), ',') == v
    decreases |v|
  {
    if v != "" {
      var rest := RawFrom(Step(q, v[0]), v[1..]);
      RawRejoins(Step(q, v[0]), v[1..]);
      assert v == [v[0]] + v[1..];
      if v[0] == ',' && !q.inQuote {
        assert RawFrom(q, v)[1..] == rest;
      } else {
        assert RawFrom(q, v)[1..] == rest[1..];
      }
    }
  }

  /** Where the separator after piece `k` stands in the joined text. */
  function Position(parts: seq<string>, k: nat): nat
    requires k < |parts|
  {
    if k == 0 then |parts[0]| else |parts[0]| + 1 + Position(parts[1..], k - 1)
  }

  ghost predicate CutsAt(parts: seq<string>, i: nat) {
    exists k: nat :: k < |parts| - 1 && Position(parts, k) == i
  }

  lemma CutsAtShift(parts: seq<string>, i: nat)
    requires |parts| > 0
    ensures CutsAt([""] + parts, i) <==> i == 0 || CutsAt(parts, i - 1)
    ensures forall c: char :: CutsAt(Prepend([c], parts), i) <==> i > 0 && CutsAt(parts, i - 1)
  {
    var e := [""] + parts;
    assert e[1..] == parts;
    assert Position(e, 0) == 0;
    forall k: nat | k < |parts| - 1 ensures Position(e, k + 1) == 1 + Position(parts, k) { }
    if CutsAt(e, i) && i > 0 {
      var k: nat :| k < |e| - 1 && Position(e, k) == i;
      assert Position(parts, k - 1) == i - 1;
    }
    if i > 0 && CutsAt(parts, i - 1) {
      var k: nat :| k < |parts| - 1 && Position(parts, k) == i - 1;
      assert Position(e, k + 1) == i;
    }
    forall c: char ensures CutsAt(Prepend([c], parts), i) <==> i > 0 && CutsAt(parts, i - 1) {
      var p := Prepend([c], parts);
      assert p[1..] == parts[1..];
      forall k: nat | k < |parts| ensures Position(p, k) == 1 + Position(parts, k) { }
      if CutsAt(p, i) {
        var k: nat :| k < |p| - 1 && Position(p, k) == i;
        assert Position(parts, k) == i - 1;
      }
      if i > 0 && CutsAt(parts, i - 1) {
        var k: nat :| k < |parts| - 1 && Position(parts, k) == i - 1;
        assert Position(p, k) == i;
      }
    }
  }

  lemma {:induction false} CutsFromState(q: Scan, v: string, i: nat)
    requires i < |v|
    ensures CutsAt(RawFrom(q, v), i) <==> v[i] == ',' && !ScanFrom(q, v[..i]).inQuote
    decreases |v|
  {
    var q', rest := Step(q, v[0]), RawFrom(Step(q, v[0]), v[1..]);
    CutsAtShift(rest, i);
    if i > 0 {
      CutsFromState(q', v[1..], i - 1);
      assert v[..i][1..] == v[1..][..i-1];
    } else if v[0] == ',' && !q.inQuote {
      assert |rest| > 0;
    }
  }

  /** The untrimmed pieces rejoin to the input, and the cuts are exactly the commas outside quoted strings. */
  lemma SplitsAtTopLevelCommas(v: string, i: nat)
    requires i < |v|
    ensures Join(RawParts(v), ',') == v
    ensures CutsAt(RawParts(v), i) <==> v[i] == ',' && Outside(v[..i])
  {
    RawRejoins(START, v);
    CutsFromState(START, v, i);
    ScannerIsGrammar(v[..i]);
  }

  // ---------- one link ----------

  predicate RelIsAlternate(param: string) {
    HasWord(param, "rel", "alternate")
  }

  predicate SomeRelIsAlternate(params: seq<string>) {
    SomeHasWord(params, "rel", "alternate")
  }

  lemma AreSmallLetters()
    ensures SmallLetters("rel") && SmallLetters("alternate")
  {
  }

  /** The bracketed target of a trimmed link some parameter of which is a rel naming "alternate". */
  function TargetOf(p: string, close: int): Option<string>
    requires close < |p|
  {
    if p != "" && p[0] == '<' && close > 1 && SomeRelIsAlternate(Split(p[close+1..], ';')) then Some(p[1..close]) else None
  }

  function AlternateTarget(part: string): Option<string> {
    var p := TrimSpace(part);
    TargetOf(p, IndexOf(p, '>'))
  }

  // ---------- what a link must look like ----------

  /** One of the parameters is a rel whose value lists "alternate". */
  ghost predicate SaysAlternate(rest: string) {
    exists p :: IsPiece(rest, p, ';') && IsAssignment(p, "rel", "alternate")
  }

  /** White space, <url>, parameters that do not end in white space, white space. */
  ghost predicate LinkParts(part: string, lead: string, url: string, rest: string, trail: string) {
    && part == lead + (['<'] + url + ['>'] + rest) + trail
    && AllSpace(lead) && AllSpace(trail) && (rest == "" || !IsSpace(rest[|rest|-1]))
  }

  ghost predicate IsAlternateLink(part: string, url: string) {
    url != "" && '>' !in url && exists lead, rest, trail :: LinkParts(part, lead, url, rest, trail) && SaysAlternate(rest)
  }

  lemma SaysAlternateExactly(rest: string)
    ensures SomeRelIsAlternate(Split(rest, ';')) <==> SaysAlternate(rest)
  {
    AreSmallLetters();
    ParametersExactly(rest, "rel", "alternate");
  }

  lemma LinkMeets(part: string, lead: string, p: string, trail: string, close: nat)
    requires part == lead + p + trail && AllSpace(lead) && AllSpace(trail) && 0 < close < |p|
    requires p[0] == '<' && p[close] == '>' && !IsSpace(p[|p|-1])
    ensures LinkParts(part, lead, p[1..close], p[close+1..], trail)
  {
    assert p == ['<'] + p[1..close] + ['>'] + p[close+1..];
  }

  lemma TargetIsAlternateLink(part: string)
    requires AlternateTarget(part).Some?
    ensures IsAlternateLink(part, AlternateTarget(part).value)
  {
    var p := TrimSpace(part);
    var close := IndexOf(p, '>');
    var lead, trail := TrimSpaceParts(part);
    LinkMeets(part, lead, p, trail, close);
    SaysAlternateExactly(p[close+1..]);
    assert forall c :: c in p[1..close] ==> c in p[..close];
  }

  lemma TrimmedLink(part: string, lead: string, url: string, rest: string, trail: string)
    requires LinkParts(part, lead, url, rest, trail)
    ensures TrimSpace(part) == ['<'] + url + ['>'] + rest
  {
    var t := ['<'] + url + ['>'] + rest;
    assert t[|t|-1] == if rest == "" then '>' else rest[|rest|-1];
    AllSpaceTrims(lead);
    AllSpaceTrims(trail);
    TrimAround(lead, t, trail);
    assert "" + t + "" == t;
  }

  lemma TargetOfParts(p: string, url: string, rest: string)
    requires p == ['<'] + url + ['>'] + rest && url != "" && '>' !in url && SomeRelIsAlternate(Split(rest, ';'))
    ensures TargetOf(p, IndexOf(p, '>')) == Some(url)
  {
    assert p == (['<'] + url) + ['>'] + rest;
    IndexOfFirst(['<'] + url, '>', rest);
    assert p[1..|url|+1] == url && p[|url|+2..] == rest;
  }

  lemma AlternateLinkIsFound(part: string, url: string)
    requires IsAlternateLink(part, url)
    ensures AlternateTarget(part) == Some(url)
  {
    var lead, rest, trail :| LinkParts(part, lead, url, rest, trail) && SaysAlternate(rest);
    TrimmedLink(part, lead, url, rest, trail);
    SaysAlternateExactly(rest);
    TargetOfParts(TrimSpace(part), url, rest);
  }

  /** For every text: the parser returns a URL exactly when the text is an alternate link to it. */
  lemma AlternateTargetExactly(part: string, url: string)
    ensures AlternateTarget(part) == Some(url) <==> IsAlternateLink(part, url)
  {
    if IsAlternateLink(part, url) { AlternateLinkIsFound(part, url); }
    if AlternateTarget(part) == Some(url) { TargetIsAlternateLink(part); }
  }

  lemma BracketedIsAlternate(url: string, pad: string, param: string)
    requires url != "" && '>' !in url && ';' !in param && param != "" && !IsSpace(param[|param|-1])
    requires IsAssignment(param, "rel", "alternate")
    ensures IsAlternateLink(['<'] + url + ['>'] + (pad + [';'] + param), url)
  {
    var rest := pad + [';'] + param;
    var text := ['<'] + url + ['>'] + rest;
    assert Parts(rest, pad + [';'], param, "");
    assert IsPiece(rest, param, ';');
    assert SaysAlternate(rest);
    assert text == "" + text + "";
    assert LinkParts(text, "", url, rest, "");
  }

  lemma PaddedParameterEnds(pad: string, key: string, quotes: string, word: string)
    requires AllSpace(pad) && AllQuotes(quotes) && SmallLetters(key) && SmallLetters(word)
    ensures var param := pad + key + pad + ['='] + (pad + quotes + word + quotes);
      ';' !in param && param != "" && !IsSpace(param[|param|-1])
  {
    var param := pad + key + pad + ['='] + (pad + quotes + word + quotes);
    forall c | c in param ensures c != ';' {
      assert c in pad || c in key || c == '=' || c in quotes || c in word;
    }
    assert param[|param|-1] in (if quotes == "" then word else quotes);
  }

  /** For instance with white space around the semicolon and the equals sign, and quotes or none. */
  lemma SpacedLinkIsAlternate(url: string, pad: string, quotes: string)
    requires url != "" && '>' !in url && AllSpace(pad) && AllQuotes(quotes)
    ensures var param := pad + "rel" + pad + ['='] + (pad + quotes + "alternate" + quotes);
      AlternateTarget(['<'] + url + ['>'] + (pad + [';'] + param)) == Some(url)
  {
    var param := pad + "rel" + pad + ['='] + (pad + quotes + "alternate" + quotes);
    AreSmallLetters();
    PaddedAssignment(pad, "rel", quotes, "alternate");
    PaddedParameterEnds(pad, "rel", quotes, "alternate");
    BracketedIsAlternate(url, pad, param);
    AlternateLinkIsFound(['<'] + url + ['>'] + (pad + [';'] + param), url);
  }

  method FindAlternateRel(params: seq<string>) returns (found: bool)
    ensures found <==> exists p :: p in params && IsAssignment(p, "rel", "alternate")
    ensures found == SomeRelIsAlternate(params)
  {
    AreSmallLetters();
    SomeHasWordExactly(params, "rel", "alternate");
    for i := 0 to |params|
      invariant forall j :: 0 <= j < i ==> !IsAssignment(params[j], "rel", "alternate")
    {
      HasWordExactly(params[i], "rel", "alternate");
      if RelIsAlternate(params[i]) {
        return true;
      }
    }
    return false;
  }

  method ParseTrimmedLink(p: string, close: int) returns (target: Option<string>)
    requires close < |p|
    ensures target == TargetOf(p, close)
  {
    if p == "" || p[0] != '<' {
      return None;
    }
    if close <= 1 {
      return None;
    }
    var params := Split(p[close+1..], ';');
    var found := FindAlternateRel(params);
    return if found then Some(p[1..close]) else None;
  }

  /** The URL exactly when the text is an alternate link to it; so at most one, and none otherwise. */
  method ParseAlternateLinkPart(part: string) returns (target: Option<string>)
    ensures forall url :: target == Some(url) <==> IsAlternateLink(part, url)
    ensures target == AlternateTarget(part)
  {
    var p := TrimSpace(part);
    target := ParseTrimmedLink(p, IndexOf(p, '>'));
    forall url ensures target == Some(url) <==> IsAlternateLink(part, url) { AlternateTargetExactly(part, url); }
  }

  /** The values of those that have one, in order. */
  function Present(targets: seq<Option<string>>): seq<string> {
    if targets == [] then []
    else (if targets[0].Some? then [targets[0].value] else []) + Present(targets[1..])
  }

  function AlternateTargets(parts: seq<string>): seq<string> {
    Present(seq(|parts|, i requires 0 <= i < |parts| => AlternateTarget(parts[i])))
  }

  // ---------- printing and parsing back ----------

  datatype Link = Link(url: string, rel: string)

  function LinkText(link: Link): string {
    "<" + link.url + ">;rel=\"" + link.rel + "\""
  }

  /** The gateway's printers, for the directory, for a parent authorization and for an alternate chain. */
  function DirectoryLink(baseUrl: string): Link {
    Link(baseUrl + "/directory", "index")
  }

  function UpLink(authzUrl: string): Link {
    Link(authzUrl, "up")
  }

  function AlternateLink(certUrl: string): Link {
    Link(certUrl, "alternate")
  }

  predicate Printable(url: string) {
    url != "" && ',' !in url && '"' !in url && '>' !in url
  }

  predicate PlainRel(rel: string) {
    rel != "" && forall c :: c in rel ==> !IsSpace(c) && c !in {'"', '\\', ',', ';'}
  }

  predicate PrintableLink(link: Link) {
    Printable(link.url) && PlainRel(link.rel)
  }

  /** Links joined by commas, with optional white space after each. */
  function JoinLinks(links: seq<string>, pad: string): string {
    if |links| == 0 then ""
    else if |links| == 1 then links[0]
    else links[0] + ([','] + (pad + JoinLinks(links[1..], pad)))
  }

  lemma {:induction false} ScanPlain(q: Scan, u: string)
    requires '"' !in u && !q.escaped && (q.inQuote ==> '\\' !in u)
    ensures ScanFrom(q, u) == q
  {
    if u != "" { ScanPlain(q, u[1..]); }
  }

  lemma {:induction false} RawWithoutComma(q: Scan, a: string, w: string)
    requires ',' !in a
    ensures RawFrom(q, a + w) == Prepend(a, RawFrom(ScanFrom(q, a), w))
    decreases |a|
  {
    var rest := RawFrom(ScanFrom(q, a), w);
    PrependTwice("", "", rest);
    if a == "" {
      assert a + w == w;
    } else {
      assert (a + w)[1..] == a[1..] + w;
      RawWithoutComma(Step(q, a[0]), a[1..], w);
      PrependTwice([a[0]], a[1..], rest);
      assert [a[0]] + a[1..] == a;
    }
  }

  lemma ScanOfQuoted(head: string, word: string)
    requires '"' !in head && '"' !in word && '\\' !in word
    ensures ScanFrom(START, head + (['"'] + (word + ['"']))) == START
  {
    ScanConcat(START, head, ['"'] + (word + ['"']));
    ScanPlain(START, head);
    ScanConcat(START, ['"'], word + ['"']);
    ScanConcat(Scan(true, false), word, ['"']);
    ScanPlain(Scan(true, false), word);
  }

  lemma {:induction false} TrimLeftPad(pad: string, s: string)
    requires forall c :: c in pad ==> IsSpace(c)
    ensures TrimLeft(pad + s) == TrimLeft(s)
  {
    if pad == "" {
      assert pad + s == s;
    } else {
      assert (pad + s)[1..] == pad[1..] + s;
      TrimLeftPad(pad[1..], s);
    }
  }

  lemma {:induction false} WordLengthOfWord(s: string)
    requires forall c :: c in s ==> !IsSpace(c)
    ensures WordLength(s) == |s|
  {
    if s != "" { WordLengthOfWord(s[1..]); assert s[0] in s; }
  }

  lemma FieldsOfWord(s: string)
    requires s != "" && forall c :: c in s ==> !IsSpace(c)
    ensures Fields(s) == [s]
  {
    WordLengthOfWord(s);
    assert s[0] in s;
    assert s[..|s|] == s && s[|s|..] == "";
  }

  lemma TrimQuotesOfQuoted(word: string)
    requires word != "" && '"' !in word
    ensures TrimQuotes(['"'] + word + ['"']) == word
  {
    var quoted := ['"'] + word + ['"'];
    var half := word + ['"'];
    assert quoted[1..] == half && half[0] == word[0] && half[..|half|-1] == word;
    assert word[|word|-1] in word;
    assert TrimQuotes(word) == word;
    assert TrimQuotes(half) == TrimQuotes(word);
  }

  /** A parameter key="word" read back: the text before and after the equals sign. */
  lemma QuotedParameter(key: string, word: string)
    requires key != "" && word != "" && '=' !in key && '"' !in word
    requires !IsSpace(key[0]) && !IsSpace(key[|key|-1]) && forall c :: c in word ==> !IsSpace(c)
    requires EqualFold(key, "rel")
    ensures RelIsAlternate(key + ['='] + (['"'] + word + ['"'])) <==> EqualFold(word, "alternate")
  {
    var value := ['"'] + word + ['"'];
    var p := key + ['='] + value;
    TrimIdle(p);
    assert p[..|key|] == key && p[|key|+1..] == value;
    IndexOfFirst(key, '=', value);
    TrimIdle(key);
    TrimIdle(value);
    TrimQuotesOfQuoted(word);
    FieldsOfWord(word);
    assert Names([word], "alternate") <==> EqualFold(word, "alternate");
  }

  lemma SplitAfterBracket(param: string)
    requires ';' !in param
    ensures SomeRelIsAlternate(Split(";" + param, ';')) <==> RelIsAlternate(param)
  {
    assert ";" + param == "" + [';'] + param;
    SplitConcat("", param, ';');
    SplitNone(param, ';');
    assert Split("", ';') + [param] == ["", param];
    assert ["", param][1..] == [param];
    assert [param][1..] == [];
    assert SomeHasWord([param], "rel", "alternate") <==> HasWord(param, "rel", "alternate");
    assert !RelIsAlternate("");
  }

  lemma BracketedTarget(url: string, param: string)
    requires url != "" && '>' !in url && ';' !in param
    requires param != "" && !IsSpace(param[|param|-1])
    ensures AlternateTarget("<" + url + ">;" + param) == if RelIsAlternate(param) then Some(url) else None
  {
    var p := "<" + url + ">;" + param;
    var close := |url| + 1;
    assert p[|p|-1] == param[|param|-1];
    TrimIdle(p);
    assert p == ("<" + url) + ['>'] + (";" + param);
    IndexOfFirst("<" + url, '>', ";" + param);
    assert p[1..close] == url && p[close+1..] == ";" + param;
    SplitAfterBracket(param);
  }

  /** A link text that survives splitting and white space, and is parsed as `target`. */
  ghost predicate Yields(link: string, target: Option<string>) {
    && link != "" && !IsSpace(link[0]) && !IsSpace(link[|link|-1])
    && ',' !in link && ScanFrom(START, link) == START && AlternateTarget(link) == target
  }

  lemma BracketedScan(url: string, key: string, word: string)
    requires Printable(url) && '"' !in key && '"' !in word && '\\' !in word && ',' !in key + word
    ensures var link := "<" + url + ">;" + (key + ['='] + (['"'] + word + ['"']));
      ScanFrom(START, link) == START && ',' !in link
  {
    var head := "<" + url + ">;" + key + ['='];
    ScanOfQuoted(head, word);
    assert "<" + url + ">;" + (key + ['='] + (['"'] + word + ['"'])) == head + (['"'] + (word + ['"']));
    assert forall c :: c in key || c in word ==> c in key + word;
  }

  lemma BracketedLinkYields(link: string, url: string, key: string, word: string, param: string)
    requires Printable(url) && link == "<" + url + ">;" + param && param == key + ['='] + (['"'] + word + ['"'])
    requires '"' !in key && '"' !in word && '\\' !in word && ',' !in key + word && ';' !in param
    ensures Yields(link, if RelIsAlternate(param) then Some(url) else None)
  {
    BracketedScan(url, key, word);
    BracketedTarget(url, param);
    assert link[|link|-1] == '"';
  }

  lemma PrintedShape(link: Link) returns (key: string, param: string)
    requires PlainRel(link.rel)
    ensures param == key + ['='] + (['"'] + link.rel + ['"']) && LinkText(link) == "<" + link.url + ">;" + param
    ensures key != "" && '=' !in key && !IsSpace(key[0]) && !IsSpace(key[|key|-1])
    ensures '"' !in key && '"' !in link.rel && '\\' !in link.rel && ',' !in key + link.rel && ';' !in param
    ensures EqualFold(key, "rel")
  {
    key := "rel";
    param := key + ['='] + (['"'] + link.rel + ['"']);
    assert LinkText(link) == "<" + link.url + ">;" + param;
  }

  /** A printed link is parsed as its URL if its relation is "alternate", and as nothing otherwise. */
  lemma PrintedParses(link: Link)
    requires PrintableLink(link)
    ensures Yields(LinkText(link), if EqualFold(link.rel, "alternate") then Some(link.url) else None)
  {
    var key, param := PrintedShape(link);
    QuotedParameter(key, link.rel);
    BracketedLinkYields(LinkText(link), link.url, key, link.rel, param);
  }

  lemma PaddedLink(lead: string, link: string, target: Option<string>)
    requires Yields(link, target) && forall c :: c in lead ==> IsSpace(c)
    ensures ',' !in lead + link && ScanFrom(START, lead + link) == START
    ensures AlternateTarget(TrimSpace(lead + link)) == target
  {
    TrimLeftPad(lead, link);
    TrimIdle(link);
    ScanPlain(START, lead);
    ScanConcat(START, lead, link);
  }

  lemma RawLinkThenMore(first: string, more: string)
    requires ',' !in first && ScanFrom(START, first) == START
    ensures RawParts(first) == [first]
    ensures RawParts(first + ([','] + more)) == [first] + RawParts(more)
  {
    RawWithoutComma(START, first, "");
    assert first + "" == first;
    RawWithoutComma(START, first, [','] + more);
    assert ([','] + more)[1..] == more;
  }

  /** The texts as they stand in the joined header. */
  function Padded(lead: string, texts: seq<string>, pad: string): seq<string> {
    seq(|texts|, i requires 0 <= i < |texts| => (if i == 0 then lead else pad) + texts[i])
  }

  lemma {:induction false} JoinedLinksSplit(lead: string, texts: seq<string>, pad: string)
    requires |texts| > 0
    requires forall t :: t in Padded(lead, texts, pad) ==> ',' !in t && ScanFrom(START, t) == START
    ensures RawParts(lead + JoinLinks(texts, pad)) == Padded(lead, texts, pad)
    decreases |texts|
  {
    var first := lead + texts[0];
    assert Padded(lead, texts, pad)[0] == first;
    if |texts| == 1 {
      RawLinkThenMore(first, "");
    } else {
      var more := pad + JoinLinks(texts[1..], pad);
      RawLinkThenMore(first, more);
      assert lead + JoinLinks(texts, pad) == first + ([','] + more);
      assert Padded(lead, texts, pad) == [first] + Padded(pad, texts[1..], pad);
      JoinedLinksSplit(pad, texts[1..], pad);
    }
  }

  function Texts(links: seq<Link>): seq<string> {
    seq(|links|, i requires 0 <= i < |links| => LinkText(links[i]))
  }

  function AlternateUrl(link: Link): Option<string> {
    if EqualFold(link.rel, "alternate") then Some(link.url) else None
  }

  function AlternateUrls(links: seq<Link>): seq<Option<string>> {
    seq(|links|, i requires 0 <= i < |links| => AlternateUrl(links[i]))
  }

  lemma PaddedTextParses(lead: string, link: Link)
    requires PrintableLink(link) && forall c :: c in lead ==> IsSpace(c)
    ensures var t := lead + LinkText(link);
      ',' !in t && ScanFrom(START, t) == START && AlternateTarget(TrimSpace(t)) == AlternateUrl(link)
  {
    PrintedParses(link);
    PaddedLink(lead, LinkText(link), AlternateUrl(link));
  }

  lemma EmptyHeaderHasNone()
    ensures AlternateTargets(TrimAll(RawParts(""))) == []
  {
    var parts := TrimAll(RawParts(""));
    assert parts == [""];
    assert seq(|parts|, i requires 0 <= i < |parts| => AlternateTarget(parts[i])) == [None];
    assert Present([None]) == [];
  }

  /** The URLs of the alternate links are what comes back from a header, in order and no others. */
  lemma MixedLinksParseBack(links: seq<Link>, pad: string)
    requires forall l :: l in links ==> PrintableLink(l)
    requires forall c :: c in pad ==> IsSpace(c)
    ensures AlternateTargets(TrimAll(RawParts(JoinLinks(Texts(links), pad)))) == Present(AlternateUrls(links))
  {
    if links == [] {
      EmptyHeaderHasNone();
      return;
    }
    var padded := Padded("", Texts(links), pad);
    forall i | 0 <= i < |links|
      ensures ',' !in padded[i] && ScanFrom(START, padded[i]) == START
      ensures AlternateTarget(TrimSpace(padded[i])) == AlternateUrl(links[i])
    {
      assert links[i] in links;
      PaddedTextParses(if i == 0 then "" else pad, links[i]);
    }
    JoinedLinksSplit("", Texts(links), pad);
    assert "" + JoinLinks(Texts(links), pad) == JoinLinks(Texts(links), pad);
    var parts := TrimAll(padded);
    assert seq(|parts|, i requires 0 <= i < |parts| => AlternateTarget(parts[i])) == AlternateUrls(links);
  }

  function AlternateLinks(urls: seq<string>): seq<Link> {
    seq(|urls|, i requires 0 <= i < |urls| => AlternateLink(urls[i]))
  }

  lemma {:induction false} AllPresent(urls: seq<string>)
    ensures Present(AlternateUrls(AlternateLinks(urls))) == urls
  {
    if urls != [] {
      AllPresent(urls[1..]);
      assert AlternateUrls(AlternateLinks(urls))[1..] == AlternateUrls(AlternateLinks(urls[1..]));
      assert AlternateUrl(AlternateLink(urls[0])) == Some(urls[0]);
    }
  }

  lemma RelsArePlain()
    ensures PlainRel("index") && PlainRel("up") && PlainRel("alternate")
  {
  }

  /** Any list of printable URLs, printed as alternate links and joined, parses back to itself. */
  lemma PrintedLinksParseBack(urls: seq<string>, pad: string)
    requires forall u :: u in urls ==> Printable(u)
    requires forall c :: c in pad ==> IsSpace(c)
    ensures AlternateTargets(TrimAll(RawParts(JoinLinks(Texts(AlternateLinks(urls)), pad)))) == urls
  {
    AllPresent(urls);
    RelsArePlain();
    MixedLinksParseBack(AlternateLinks(urls), pad);
  }

  /** The directory and parent links the gateway sends beside them are never taken for alternates. */
  lemma OtherLinksAreIgnored(url: string)
    requires Printable(url)
    ensures AlternateTarget(LinkText(DirectoryLink(url))).None? && AlternateTarget(LinkText(UpLink(url))).None?
  {
    RelsArePlain();
    PrintedParses(DirectoryLink(url));
    PrintedParses(UpLink(url));
    DifferentLengthsDiffer("index", "alternate");
    DifferentLengthsDiffer("up", "alternate");
  }

  lemma DifferentLengthsDiffer(a: string, b: string)
    requires |a| != |b|
    ensures !EqualFold(a, b)
  {
    assert |ToLower(a)| == |a| && |ToLower(b)| == |b|;
  }
}
