/**
  The parameters of one link-value: the parser's reading of `rel=...`, and for every text
  what it has to look like to be read as a relation, without the parser.
*/
module LinkParameters {
  import opened Text

  // ---------- the parser's pieces ----------

  function IndexOf(s: string, c: char): (k: int)
    ensures -1 <= k < |s|
    ensures if k < 0 then c !in s else s[k] == c && c !in s[..k]
  {
    if s == "" then -1
    else if s[0] == c then 0
    else
      var k := IndexOf(s[1..], c);
      if k < 0 then -1 else k + 1
  }

  lemma {:induction false} IndexOfFirst(a: string, c: char, b: string)
    requires c !in a
    ensures IndexOf(a + [c] + b, c) == |a|
  {
    if a != "" {
      IndexOfFirst(a[1..], c, b);
      assert (a + [c] + b)[1..] == a[1..] + [c] + b;
    }
  }

  function TrimQuotes(s: string): string {
    if s != "" && s[0] == '"' then TrimQuotes(s[1..])
    else if s != "" && s[|s|-1] == '"' then TrimQuotes(s[..|s|-1])
    else s
  }

  function WordLength(s: string): (n: nat)
    ensures n <= |s| && (n < |s| ==> IsSpace(s[n]))
    ensures forall i :: 0 <= i < n ==> !IsSpace(s[i])
  {
    if s == "" || IsSpace(s[0]) then 0 else 1 + WordLength(s[1..])
  }

  function Fields(s: string): seq<string>
    decreases |s|
  {
    if s == "" then []
    else if IsSpace(s[0]) then Fields(s[1..])
    else [s[..WordLength(s)]] + Fields(s[WordLength(s)..])
  }

  predicate Names(words: seq<string>, word: string) {
    words != [] && (EqualFold(words[0], word) || Names(words[1..], word))
  }

  predicate ValueNames(value: string, word: string) {
    Names(Fields(TrimQuotes(TrimSpace(value))), word)
  }

  /** The trimmed parameter p, split at its first equals sign. */
  predicate AssignsWord(p: string, eq: int, key: string, word: string)
    requires eq < |p|
  {
    eq >= 0 && EqualFold(TrimSpace(p[..eq]), key) && ValueNames(p[eq+1..], word)
  }

  /** The parameter is key=..., and its value names the word. */
  predicate HasWord(param: string, key: string, word: string) {
    var p := TrimSpace(param);
    AssignsWord(p, IndexOf(p, '='), key, word)
  }

  predicate SomeHasWord(params: seq<string>, key: string, word: string) {
    params != [] && (HasWord(params[0], key, word) || SomeHasWord(params[1..], key, word))
  }

  // ---------- what a parameter must look like ----------

  /** The text is the three parts in a row. */
  ghost predicate Parts(s: string, a: string, w: string, b: string) {
    s == a + w + b
  }

  ghost predicate AllQuotes(s: string) {
    forall c :: c in s ==> c == '"'
  }

  /** Nothing, or something that ends in white space; and the mirror image. */
  ghost predicate EndsAWord(s: string) {
    s == "" || IsSpace(s[|s|-1])
  }

  ghost predicate StartsAWord(s: string) {
    s == "" || IsSpace(s[0])
  }

  /** What may stand before a word of a value: white space, then quotes, then other words. */
  ghost predicate MayPrecede(a: string) {
    exists pad, quotes, words :: Parts(a, pad, quotes, words) && AllSpace(pad) && AllQuotes(quotes) && EndsAWord(words)
  }

  ghost predicate MayFollow(b: string) {
    exists words, quotes, pad :: Parts(b, words, quotes, pad) && StartsAWord(words) && AllQuotes(quotes) && AllSpace(pad)
  }

  /** One of the words of the value, quoted or bare, is `word` in whatever case. */
  ghost predicate Lists(value: string, word: string) {
    exists a, w, b :: Parts(value, a, w, b) && EqualFold(w, word) && MayPrecede(a) && MayFollow(b)
  }

  /** The parameter, taken apart. */
  ghost predicate Assigns(param: string, lead: string, name: string, gap: string, value: string) {
    param == lead + name + gap + ['='] + value
  }

  /** A parameter key=value with white space anywhere around its name and its value, which lists the word. */
  ghost predicate IsAssignment(param: string, key: string, word: string) {
    exists lead, name, gap, value ::
      Assigns(param, lead, name, gap, value) && AllSpace(lead) && AllSpace(gap) && EqualFold(name, key) && Lists(value, word)
  }

  /** One of the pieces between separators. */
  ghost predicate IsPiece(s: string, p: string, sep: char) {
    sep !in p && exists a, b :: Parts(s, a, p, b) && (a == "" || a[|a|-1] == sep) && (b == "" || b[0] == sep)
  }

  // ---------- letters ----------

  predicate SmallLetters(s: string) {
    s != "" && forall c :: c in s ==> 'a' <= c <= 'z'
  }

  predicate Solid(w: string) {
    w != "" && forall c :: c in w ==> !IsSpace(c) && c !in {'"', '='}
  }

  lemma FoldIsSolid(w: string, letters: string)
    requires SmallLetters(letters) && EqualFold(w, letters)
    ensures Solid(w)
  {
    assert |ToLower(w)| == |w| && |ToLower(letters)| == |letters|;
    forall c | c in w ensures !IsSpace(c) && c !in {'"', '='} {
      var i :| 0 <= i < |w| && w[i] == c;
      assert ToLower(w)[i] == LowerChar(c) && ToLower(letters)[i] == LowerChar(letters[i]);
      assert letters[i] in letters;
    }
  }

  lemma SolidEnds(w: string)
    requires Solid(w)
    ensures !IsSpace(w[0]) && !IsSpace(w[|w|-1]) && '"' !in w && '=' !in w && w[0] != '"' && w[|w|-1] != '"'
  {
    assert w[0] in w && w[|w|-1] in w;
  }

  // ---------- words ----------

  lemma FieldCases(s: string, w: string)
    requires s != "" && !IsSpace(s[0]) && w in Fields(s)
    ensures var n := WordLength(s); n > 0 && (w == s[..n] || w in Fields(s[n..]))
  {
  }

  /** A word within the rest of a text, after a part that is a word or a space. */
  lemma WordFurtherOn(s: string, x: string, t: string, a: string, w: string, b: string)
    requires s == x + t && Parts(t, a, w, b) && EndsAWord(a) && w != "" && !IsSpace(w[0])
    requires EndsAWord(x) || StartsAWord(t)
    ensures Parts(s, x + a, w, b) && EndsAWord(x + a)
  {
    if a == "" { assert t[0] == w[0]; }
  }

  lemma {:induction false} FieldIsWord(s: string, w: string) returns (a: string, b: string)
    requires w in Fields(s)
    ensures Parts(s, a, w, b) && EndsAWord(a) && StartsAWord(b)
    ensures w != "" && !IsSpace(w[0])
    decreases |s|
  {
    if IsSpace(s[0]) {
      a, b := FieldIsWord(s[1..], w);
      WordFurtherOn(s, s[..1], s[1..], a, w, b);
      a := s[..1] + a;
    } else {
      var n := WordLength(s);
      FieldCases(s, w);
      if w == s[..n] {
        a, b := "", s[n..];
      } else {
        a, b := FieldIsWord(s[n..], w);
        WordFurtherOn(s, s[..n], s[n..], a, w, b);
        a := s[..n] + a;
      }
    }
  }

  lemma WordLengthIs(w: string, b: string)
    requires Solid(w) && StartsAWord(b)
    ensures WordLength(w + b) == |w|
  {
    var s := w + b;
    assert forall i :: 0 <= i < |w| ==> s[i] == w[i] && w[i] in w;
    assert |w| < |s| ==> s[|w|] == b[0];
  }

  lemma {:induction false} WordIsField(a: string, w: string, b: string)
    requires EndsAWord(a) && StartsAWord(b) && Solid(w)
    ensures w in Fields(a + w + b)
    decreases |a|
  {
    var s := a + w + b;
    SolidEnds(w);
    if a == "" {
      assert s == w + b;
      WordLengthIs(w, b);
      assert s[..|w|] == w && s[0] == w[0];
    } else if IsSpace(a[0]) {
      assert s[0] == a[0] && s[1..] == a[1..] + w + b;
      WordIsField(a[1..], w, b);
    } else {
      var n := WordLength(s);
      assert s[0] == a[0] && s[|a|-1] == a[|a|-1];
      assert 0 < n < |a|;
      assert s[n..] == a[n..] + w + b;
      WordIsField(a[n..], w, b);
    }
  }

  lemma {:induction false} NamesExactly(words: seq<string>, word: string)
    ensures Names(words, word) <==> exists w :: w in words && EqualFold(w, word)
  {
    if words != [] {
      NamesExactly(words[1..], word);
      assert forall w :: w in words <==> w == words[0] || w in words[1..];
    }
  }

  // ---------- quotes ----------

  lemma {:induction false} TrimQuotesParts(s: string) returns (pre: string, post: string)
    ensures Parts(s, pre, TrimQuotes(s), post) && AllQuotes(pre) && AllQuotes(post)
    decreases |s|
  {
    if s != "" && s[0] == '"' {
      pre, post := TrimQuotesParts(s[1..]);
      pre := [s[0]] + pre;
    } else if s != "" && s[|s|-1] == '"' {
      pre, post := TrimQuotesParts(s[..|s|-1]);
      post := post + [s[|s|-1]];
    } else {
      pre, post := "", "";
    }
  }

  ghost predicate IsTail(r: string, s: string) {
    |r| <= |s| && s[|s|-|r|..] == r
  }

  lemma EndsOf(a: string, w: string, b: string)
    requires Solid(w)
    ensures var s := a + w + b;
      && s[0] == (if a == "" then w[0] else a[0]) && s[|s|-1] == (if b == "" then w[|w|-1] else b[|b|-1])
      && (a != "" ==> s[1..] == a[1..] + w + b) && (b != "" ==> s[..|s|-1] == a + w + b[..|b|-1])
    ensures w[0] != '"' && w[|w|-1] != '"'
  {
    SolidEnds(w);
  }

  lemma TrimQuotesSteps(s: string)
    requires s != ""
    ensures s[0] == '"' ==> TrimQuotes(s) == TrimQuotes(s[1..])
    ensures s[0] != '"' && s[|s|-1] == '"' ==> TrimQuotes(s) == TrimQuotes(s[..|s|-1])
    ensures s[0] != '"' && s[|s|-1] != '"' ==> TrimQuotes(s) == s
  {
  }

  /** Around a solid word, the trim takes quotes off the two ends apart. */
  lemma {:induction false} TrimQuotesAround(a: string, w: string, b: string) returns (a': string, b': string)
    requires Solid(w)
    ensures TrimQuotes(a + w + b) == a' + w + b'
    ensures IsTail(a', a) && (a' != "" ==> a'[0] != '"')
    ensures b' <= b && (b' != "" ==> b'[|b'|-1] != '"')
    decreases |a| + |b|
  {
    EndsOf(a, w, b);
    TrimQuotesSteps(a + w + b);
    if a != "" && a[0] == '"' {
      a', b' := TrimQuotesAround(a[1..], w, b);
    } else if b != "" && b[|b|-1] == '"' {
      a', b' := TrimQuotesAround(a, w, b[..|b|-1]);
    } else {
      a', b' := a, b;
    }
  }

  lemma TrimLeftOfQuotes(pad: string, q: string)
    requires AllSpace(pad) && AllQuotes(q)
    ensures TrimLeft(pad + q) == q
  {
    AllSpaceTrims(pad);
    if q == "" {
      assert pad + q == pad;
    } else {
      assert q[0] in q;
      TrimLeftTo(pad, q);
    }
  }

  lemma TrimRightOfQuotes(q: string, pad: string)
    requires AllSpace(pad) && AllQuotes(q)
    ensures TrimRight(q + pad) == q
  {
    AllSpaceTrims(pad);
    if q == "" {
      assert q + pad == pad;
    } else {
      assert q[|q|-1] in q;
      TrimRightTo(q, pad);
    }
  }

  lemma NoQuotesLeft(q: string, a: string, r: string, b: string)
    requires AllQuotes(q) && q == a + r + b && (r != "" ==> r[0] != '"' || r[|r|-1] != '"')
    ensures r == ""
  {
    forall i | 0 <= i < |r| ensures r[i] == '"' {
      assert q[|a| + i] == r[i] && q[|a| + i] in q;
    }
  }

  lemma QuotesBefore(a: string, pad: string, quotes: string, r: string)
    requires a == pad + quotes && AllSpace(pad) && AllQuotes(quotes)
    requires IsTail(r, TrimLeft(a)) && (r != "" ==> r[0] != '"')
    ensures r == ""
  {
    TrimLeftOfQuotes(pad, quotes);
    assert quotes == quotes[..|quotes|-|r|] + r + "";
    NoQuotesLeft(quotes, quotes[..|quotes|-|r|], r, "");
  }

  lemma TailEndsTheSame(a: string, r: string)
    requires IsTail(r, TrimLeft(a)) && EndsAWord(a)
    ensures EndsAWord(r)
  {
    var pre := TrimLeftParts(a);
    assert r != "" ==> r[|r|-1] == TrimLeft(a)[|TrimLeft(a)|-1] == a[|a|-1];
  }

  /** What the two trims leave before a word, if it may precede one. */
  lemma PrecedingEndsAWord(a: string, r: string)
    requires MayPrecede(a) && IsTail(r, TrimLeft(a)) && (r != "" ==> r[0] != '"')
    ensures EndsAWord(r)
  {
    var pad, quotes, words :| Parts(a, pad, quotes, words) && AllSpace(pad) && AllQuotes(quotes) && EndsAWord(words);
    if words == "" {
      assert a == pad + quotes;
      QuotesBefore(a, pad, quotes, r);
    } else {
      assert a[|a|-1] == words[|words|-1];
      TailEndsTheSame(a, r);
    }
  }

  lemma QuotesAfter(b: string, quotes: string, pad: string, r: string)
    requires b == quotes + pad && AllSpace(pad) && AllQuotes(quotes)
    requires r <= TrimRight(b) && (r != "" ==> r[|r|-1] != '"')
    ensures r == ""
  {
    TrimRightOfQuotes(quotes, pad);
    assert quotes == "" + r + quotes[|r|..];
    NoQuotesLeft(quotes, "", r, quotes[|r|..]);
  }

  lemma HeadStartsTheSame(b: string, r: string)
    requires r <= TrimRight(b) && StartsAWord(b)
    ensures StartsAWord(r)
  {
    var post := TrimRightParts(b);
    assert r != "" ==> r[0] == TrimRight(b)[0] == b[0];
  }

  lemma FollowingStartsAWord(b: string, r: string)
    requires MayFollow(b) && r <= TrimRight(b) && (r != "" ==> r[|r|-1] != '"')
    ensures StartsAWord(r)
  {
    var words, quotes, pad :| Parts(b, words, quotes, pad) && StartsAWord(words) && AllQuotes(quotes) && AllSpace(pad);
    if words == "" {
      assert b == quotes + pad;
      QuotesAfter(b, quotes, pad, r);
    } else {
      assert b[0] == words[0];
      HeadStartsTheSame(b, r);
    }
  }

  // ---------- the value ----------

  lemma SidesMeet(value: string, pre: string, q: string, a: string, w: string, b: string, q': string, post: string)
    requires value == pre + (q + (a + w + b) + q') + post
    requires AllSpace(pre) && AllQuotes(q) && EndsAWord(a) && StartsAWord(b) && AllQuotes(q') && AllSpace(post)
    ensures Parts(value, pre + q + a, w, b + q' + post) && MayPrecede(pre + q + a) && MayFollow(b + q' + post)
  {
    assert Parts(pre + q + a, pre, q, a) && Parts(b + q' + post, b, q', post);
  }

  lemma NamedIsListed(value: string, word: string)
    requires ValueNames(value, word)
    ensures Lists(value, word)
  {
    var t := TrimSpace(value);
    NamesExactly(Fields(TrimQuotes(t)), word);
    var w :| w in Fields(TrimQuotes(t)) && EqualFold(w, word);
    var a, b := FieldIsWord(TrimQuotes(t), w);
    var pre, post := TrimSpaceParts(value);
    var q, q' := TrimQuotesParts(t);
    SidesMeet(value, pre, q, a, w, b, q', post);
  }

  lemma ListedIsNamed(value: string, word: string)
    requires Lists(value, word) && SmallLetters(word)
    ensures ValueNames(value, word)
  {
    var a, w, b :| Parts(value, a, w, b) && EqualFold(w, word) && MayPrecede(a) && MayFollow(b);
    FoldIsSolid(w, word);
    SolidEnds(w);
    TrimAround(a, w, b);
    var x, y := TrimQuotesAround(TrimLeft(a), w, TrimRight(b));
    PrecedingEndsAWord(a, x);
    FollowingStartsAWord(b, y);
    WordIsField(x, w, y);
    NamesExactly(Fields(x + w + y), word);
  }

  lemma FollowsDespitePad(b: string, pad: string)
    requires MayFollow(b) && AllSpace(pad)
    ensures MayFollow(b + pad)
  {
    var words, quotes, post :| Parts(b, words, quotes, post) && StartsAWord(words) && AllQuotes(quotes) && AllSpace(post);
    assert words + quotes + post + pad == words + quotes + (post + pad);
    assert Parts(b + pad, words, quotes, post + pad);
  }

  /** White space after a value changes nothing. */
  lemma ListsDespitePad(value: string, pad: string, word: string)
    requires Lists(value, word) && AllSpace(pad)
    ensures Lists(value + pad, word)
  {
    var a, w, b :| Parts(value, a, w, b) && EqualFold(w, word) && MayPrecede(a) && MayFollow(b);
    FollowsDespitePad(b, pad);
    assert a + w + b + pad == a + w + (b + pad);
    assert Parts(value + pad, a, w, b + pad);
  }

  // ---------- the parameter ----------

  lemma AssignedIsAssignment(param: string, pre: string, p: string, post: string, eq: nat, key: string, word: string)
    requires param == pre + p + post && AllSpace(pre) && AllSpace(post)
    requires eq < |p| && p[eq] == '=' && AssignsWord(p, eq, key, word)
    ensures IsAssignment(param, key, word)
  {
    var lead, gap := TrimSpaceParts(p[..eq]);
    NamedIsListed(p[eq+1..], word);
    ListsDespitePad(p[eq+1..], post, word);
    AssignmentMeets(param, pre, p, eq, lead, TrimSpace(p[..eq]), gap, post);
    assert AllSpace(pre + lead);
  }

  lemma HasWordIsAssignment(param: string, key: string, word: string)
    requires HasWord(param, key, word)
    ensures IsAssignment(param, key, word)
  {
    var p := TrimSpace(param);
    var pre, post := TrimSpaceParts(param);
    AssignedIsAssignment(param, pre, p, post, IndexOf(p, '='), key, word);
  }

  lemma AssignmentMeets(param: string, pre: string, p: string, eq: nat, lead: string, name: string, gap: string, post: string)
    requires param == pre + p + post && eq < |p| && p[eq] == '=' && p[..eq] == lead + name + gap
    ensures Assigns(param, pre + lead, name, gap, p[eq+1..] + post)
  {
    assert p == p[..eq] + ['='] + p[eq+1..];
  }

  lemma SolidWithin(value: string, word: string) returns (u: string, b: string)
    requires Lists(value, word) && SmallLetters(word)
    ensures value == u + b && u != "" && !IsSpace(u[|u|-1])
  {
    var a, w, rest :| Parts(value, a, w, rest) && EqualFold(w, word) && MayPrecede(a) && MayFollow(rest);
    FoldIsSolid(w, word);
    SolidEnds(w);
    u, b := a + w, rest;
  }

  /** Trimming the end of a value that lists a word leaves it a value that does. */
  lemma ListsWhenTrimmed(value: string, word: string)
    requires Lists(value, word) && SmallLetters(word)
    ensures ValueNames(TrimRight(value), word)
  {
    ListedIsNamed(value, word);
    TrimSpaceOfTrimmed(value);
  }

  lemma {:induction false} TrimLeftOfTail(s: string, pad: string)
    requires s != "" && !IsSpace(s[|s|-1]) && AllSpace(pad)
    ensures TrimLeft(s + pad) == TrimLeft(s) + pad && TrimLeft(s) != "" && TrimLeft(s)[|TrimLeft(s)|-1] == s[|s|-1]
  {
    if IsSpace(s[0]) {
      assert (s + pad)[0] == s[0] && (s + pad)[1..] == s[1..] + pad;
      TrimLeftOfTail(s[1..], pad);
    } else {
      assert (s + pad)[0] == s[0];
    }
  }

  lemma TrimSpaceOfTrimmed(s: string)
    ensures TrimSpace(TrimRight(s)) == TrimSpace(s)
  {
    var pad := TrimRightParts(s);
    var t := TrimRight(s);
    TrimRightEnds(s);
    AllSpaceTrims(pad);
    if t == "" {
      assert s == pad;
    } else {
      TrimLeftOfTail(t, pad);
      TrimRightTo(TrimLeft(t), pad);
      TrimRightTo(TrimLeft(t), "");
      assert TrimLeft(t) + "" == TrimLeft(t);
    }
  }

  lemma TrimBefore(lead: string, head: string, u: string, b: string)
    requires AllSpace(lead) && head != "" && !IsSpace(head[0]) && u != "" && !IsSpace(u[|u|-1])
    ensures TrimSpace(lead + (head + u) + b) == (head + u) + TrimRight(b)
  {
    var solid := head + u;
    assert solid[0] == head[0] && solid[|solid|-1] == u[|u|-1];
    AllSpaceTrims(lead);
    TrimAround(lead, solid, b);
    assert "" + solid == solid;
  }

  /** Trimming a parameter touches its front and the end of its value. */
  lemma TrimParameter(lead: string, head: string, value: string, word: string)
    requires AllSpace(lead) && head != "" && !IsSpace(head[0]) && Lists(value, word) && SmallLetters(word)
    ensures TrimSpace(lead + head + value) == head + TrimRight(value)
  {
    var u, b := SolidWithin(value, word);
    TrimBefore(lead, head, u, b);
    TrimRightTo(u, b);
    assert lead + head + (u + b) == lead + (head + u) + b;
    assert head + (u + TrimRight(b)) == (head + u) + TrimRight(b);
  }

  lemma NameOf(name: string, gap: string)
    requires Solid(name) && AllSpace(gap)
    ensures TrimSpace(name + gap) == name && '=' !in name + gap
  {
    SolidEnds(name);
    AllSpaceTrims(gap);
    TrimAround("", name, gap);
    assert "" + name + gap == name + gap && "" + name + "" == name;
    forall c | c in name + gap ensures c != '=' { assert c in name || c in gap; }
  }

  lemma TrimmedAssignment(lead: string, name: string, gap: string, value: string, key: string, word: string)
    requires AllSpace(lead) && AllSpace(gap) && EqualFold(name, key) && Lists(value, word)
    requires SmallLetters(key) && SmallLetters(word)
    ensures TrimSpace(lead + (name + gap + ['=']) + value) == (name + gap) + ['='] + TrimRight(value)
    ensures TrimSpace(name + gap) == name && '=' !in name + gap
  {
    FoldIsSolid(name, key);
    SolidEnds(name);
    NameOf(name, gap);
    var head := name + gap + ['='];
    assert head[0] == name[0];
    TrimParameter(lead, head, value, word);
  }

  lemma AssignmentHasWord(param: string, key: string, word: string)
    requires IsAssignment(param, key, word) && SmallLetters(key) && SmallLetters(word)
    ensures HasWord(param, key, word)
  {
    var lead, name, gap, value :|
      Assigns(param, lead, name, gap, value) && AllSpace(lead) && AllSpace(gap) && EqualFold(name, key) && Lists(value, word);
    Regroup(lead, name, gap, value);
    TrimmedAssignment(lead, name, gap, value, key, word);
    ListsWhenTrimmed(value, word);
    SplitsAtEquals(TrimSpace(param), name + gap, TrimRight(value), key, word);
  }

  lemma Regroup(lead: string, name: string, gap: string, value: string)
    ensures lead + name + gap + ['='] + value == lead + (name + gap + ['=']) + value
  {
  }

  lemma SplitsAtEquals(p: string, left: string, right: string, key: string, word: string)
    requires p == left + ['='] + right && '=' !in left
    requires EqualFold(TrimSpace(left), key) && ValueNames(right, word)
    ensures AssignsWord(p, IndexOf(p, '='), key, word)
  {
    IndexOfFirst(left, '=', right);
    assert p[..|left|] == left && p[|left|+1..] == right;
  }

  /** For every text: the parser reads a word off a parameter exactly when the parameter assigns it. */
  lemma HasWordExactly(param: string, key: string, word: string)
    requires SmallLetters(key) && SmallLetters(word)
    ensures HasWord(param, key, word) <==> IsAssignment(param, key, word)
  {
    if HasWord(param, key, word) { HasWordIsAssignment(param, key, word); }
    if IsAssignment(param, key, word) { AssignmentHasWord(param, key, word); }
  }

  lemma {:induction false} SomeHasWordExactly(params: seq<string>, key: string, word: string)
    requires SmallLetters(key) && SmallLetters(word)
    ensures SomeHasWord(params, key, word) <==> exists p :: p in params && IsAssignment(p, key, word)
  {
    if params != [] {
      SomeHasWordExactly(params[1..], key, word);
      HasWordExactly(params[0], key, word);
      assert forall p :: p in params <==> p == params[0] || p in params[1..];
    }
  }

  /** For instance with white space around the name and the value, and quotes or none. */
  lemma PaddedAssignment(pad: string, key: string, quotes: string, word: string)
    requires AllSpace(pad) && AllQuotes(quotes)
    ensures IsAssignment(pad + key + pad + ['='] + (pad + quotes + word + quotes), key, word)
  {
    var value := pad + quotes + word + quotes;
    assert Parts(pad + quotes, pad, quotes, "") && Parts(quotes, "", quotes, "");
    assert MayPrecede(pad + quotes) && MayFollow(quotes);
    assert Parts(value, pad + quotes, word, quotes);
    assert Lists(value, word);
    assert Assigns(pad + key + pad + ['='] + value, pad, key, pad, value);
  }

  // ---------- the pieces between separators ----------

  lemma {:induction false} SplitNone(s: string, sep: char)
    requires sep !in s
    ensures Split(s, sep) == [s]
  {
    if s != "" {
      SplitNone(s[1..], sep);
      assert [s[0]] + s[1..] == s;
    }
  }

  lemma {:induction false} PieceAt(s: string, k: nat, sep: char) returns (a: string, b: string)
    requires k < |Split(s, sep)|
    ensures Parts(s, a, Split(s, sep)[k], b) && sep !in Split(s, sep)[k]
    ensures if k == 0 then a == "" else a != "" && a[|a|-1] == sep
    ensures b == "" || b[0] == sep
    decreases |s|
  {
    if s == "" {
      a, b := "", "";
    } else if s[0] == sep {
      if k == 0 {
        a, b := "", s;
      } else {
        a, b := PieceAt(s[1..], k - 1, sep);
        a := [s[0]] + a;
      }
    } else {
      a, b := PieceAt(s[1..], k, sep);
      if k > 0 { a := [s[0]] + a; }
    }
  }

  lemma FirstPiece(p: string, b: string, sep: char)
    requires sep !in p && (b == "" || b[0] == sep)
    ensures p in Split(p + b, sep)
  {
    SplitNone(p, sep);
    if b == "" {
      assert p + b == p;
    } else {
      assert p + b == p + [sep] + b[1..];
      SplitConcat(p, b[1..], sep);
    }
  }

  lemma PieceIsSplit(a: string, p: string, b: string, sep: char)
    requires sep !in p && (a == "" || a[|a|-1] == sep) && (b == "" || b[0] == sep)
    ensures p in Split(a + p + b, sep)
  {
    FirstPiece(p, b, sep);
    if a == "" {
      assert a + p + b == p + b;
    } else {
      var front := a[..|a|-1];
      assert a + p + b == front + [sep] + (p + b);
      SplitConcat(front, p + b, sep);
    }
  }

  /** Splitting yields exactly the pieces between separators. */
  lemma SplitIsPieces(s: string, p: string, sep: char)
    ensures p in Split(s, sep) <==> IsPiece(s, p, sep)
  {
    if p in Split(s, sep) {
      var k :| 0 <= k < |Split(s, sep)| && Split(s, sep)[k] == p;
      var a, b := PieceAt(s, k, sep);
    }
    if IsPiece(s, p, sep) {
      var a, b :| Parts(s, a, p, b) && (a == "" || a[|a|-1] == sep) && (b == "" || b[0] == sep);
      PieceIsSplit(a, p, b, sep);
    }
  }

  lemma ParametersExactly(rest: string, key: string, word: string)
    requires SmallLetters(key) && SmallLetters(word)
    ensures SomeHasWord(Split(rest, ';'), key, word) <==> exists p :: IsPiece(rest, p, ';') && IsAssignment(p, key, word)
  {
    SomeHasWordExactly(Split(rest, ';'), key, word);
    forall p ensures p in Split(rest, ';') <==> IsPiece(rest, p, ';') { SplitIsPieces(rest, p, ';'); }
  }
}
