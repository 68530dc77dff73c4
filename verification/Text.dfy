/** The string operations the gateway uses, on ASCII text. */
module Text {

  predicate IsSpace(c: char) {
    c in {' ', '\t', '\n', '\r', '\U{0B}', '\U{0C}'}
  }

  function TrimLeft(s: string): string {
    if s != "" && IsSpace(s[0]) then TrimLeft(s[1..]) else s
  }

  function TrimRight(s: string): string {
    if s != "" && IsSpace(s[|s|-1]) then TrimRight(s[..|s|-1]) else s
  }

  function TrimSpace(s: string): string {
    TrimRight(TrimLeft(s))
  }

  lemma TrimIdle(s: string)
    requires s != "" && !IsSpace(s[0]) && !IsSpace(s[|s|-1])
    ensures TrimSpace(s) == s
  {
  }

  lemma {:induction false} TrimLeftEnds(s: string)
    ensures |TrimLeft(s)| <= |s| && (TrimLeft(s) != "" ==> !IsSpace(TrimLeft(s)[0]))
  {
    if s != "" && IsSpace(s[0]) { TrimLeftEnds(s[1..]); }
  }

  lemma {:induction false} TrimRightEnds(s: string)
    ensures TrimRight(s) <= s && (TrimRight(s) != "" ==> !IsSpace(TrimRight(s)[|TrimRight(s)|-1]))
  {
    if s != "" && IsSpace(s[|s|-1]) { TrimRightEnds(s[..|s|-1]); }
  }

  /** Trimming leaves nothing to trim. */
  lemma TrimSpaceTwice(s: string)
    ensures TrimSpace(TrimSpace(s)) == TrimSpace(s) && |TrimSpace(s)| <= |s|
  {
    var l := TrimLeft(s);
    TrimLeftEnds(s);
    TrimRightEnds(l);
    if TrimRight(l) != "" {
      assert TrimRight(l)[0] == l[0];
      TrimIdle(TrimRight(l));
    }
  }

  /** A space in front does not matter to the last character that is not one. */
  lemma {:induction false} TrimRightOfTail(s: string)
    requires s != "" && IsSpace(s[0])
    ensures TrimRight(s[1..]) == if TrimRight(s) == "" then "" else TrimRight(s)[1..]
  {
    var tail := s[1..];
    if IsSpace(s[|s|-1]) && |s| > 1 {
      assert tail[|tail|-1] == s[|s|-1];
      assert tail[..|tail|-1] == s[..|s|-1][1..];
      TrimRightOfTail(s[..|s|-1]);
    }
  }

  lemma {:induction false} TrimSpaceEndsAsTrimRight(s: string, c: char)
    requires !IsSpace(c)
    ensures HasSuffix(TrimSpace(s), [c]) <==> HasSuffix(TrimRight(s), [c])
  {
    if s != "" && IsSpace(s[0]) {
      TrimSpaceEndsAsTrimRight(s[1..], c);
      TrimRightOfTail(s);
      TrimRightEnds(s);
    }
  }

  predicate AllSpace(s: string) {
    forall c :: c in s ==> IsSpace(c)
  }

  lemma {:induction false} AllSpaceTrims(s: string)
    requires AllSpace(s)
    ensures TrimLeft(s) == TrimRight(s) == ""
  {
    if s != "" {
      assert s[0] in s && s[|s|-1] in s;
      AllSpaceTrims(s[1..]);
      AllSpaceTrims(s[..|s|-1]);
    }
  }

  lemma {:induction false} TrimLeftParts(s: string) returns (pre: string)
    ensures s == pre + TrimLeft(s) && AllSpace(pre)
  {
    if s != "" && IsSpace(s[0]) {
      pre := TrimLeftParts(s[1..]);
      pre := [s[0]] + pre;
    } else {
      pre := "";
    }
  }

  lemma {:induction false} TrimRightParts(s: string) returns (post: string)
    ensures s == TrimRight(s) + post && AllSpace(post)
  {
    if s != "" && IsSpace(s[|s|-1]) {
      post := TrimRightParts(s[..|s|-1]);
      post := post + [s[|s|-1]];
    } else {
      post := "";
    }
  }

  /** Trimming takes away white space at both ends, and leaves none there. */
  lemma TrimSpaceParts(s: string) returns (pre: string, post: string)
    ensures s == pre + TrimSpace(s) + post && AllSpace(pre) && AllSpace(post)
    ensures TrimSpace(s) != "" ==> !IsSpace(TrimSpace(s)[0]) && !IsSpace(TrimSpace(s)[|TrimSpace(s)|-1])
  {
    var l := TrimLeft(s);
    pre := TrimLeftParts(s);
    post := TrimRightParts(l);
    TrimLeftEnds(s);
    TrimRightEnds(l);
    assert TrimRight(l) != "" ==> TrimRight(l)[0] == l[0];
  }

  lemma {:induction false} TrimLeftTo(a: string, w: string)
    requires w != "" && !IsSpace(w[0])
    ensures TrimLeft(a + w) == TrimLeft(a) + w
  {
    if a == "" {
      assert a + w == w;
    } else {
      assert (a + w)[0] == a[0] && (a + w)[1..] == a[1..] + w;
      if IsSpace(a[0]) { TrimLeftTo(a[1..], w); }
    }
  }

  lemma {:induction false} TrimRightTo(w: string, b: string)
    requires w != "" && !IsSpace(w[|w|-1])
    ensures TrimRight(w + b) == w + TrimRight(b)
  {
    if b == "" {
      assert w + b == w;
    } else {
      var s := w + b;
      assert s[|s|-1] == b[|b|-1] && s[..|s|-1] == w + b[..|b|-1];
      if IsSpace(b[|b|-1]) { TrimRightTo(w, b[..|b|-1]); }
    }
  }

  /** Trimming works on the two ends apart, with anything solid between them. */
  lemma TrimAround(a: string, w: string, b: string)
    requires w != "" && !IsSpace(w[0]) && !IsSpace(w[|w|-1])
    ensures TrimSpace(a + w + b) == TrimLeft(a) + w + TrimRight(b)
  {
    assert a + w + b == a + (w + b);
    TrimLeftTo(a, w + b);
    assert TrimLeft(a) + (w + b) == (TrimLeft(a) + w) + b;
    TrimRightTo(TrimLeft(a) + w, b);
  }

  function LowerChar(c: char): char {
    if 'A' <= c <= 'Z' then c - 'A' + 'a' else c
  }

  function ToLower(s: string): string {
    seq(|s|, i requires 0 <= i < |s| => LowerChar(s[i]))
  }

  lemma {:induction false} TrimRightOfLower(s: string)
    ensures TrimRight(ToLower(s)) == ToLower(TrimRight(s))
  {
    if s != "" && IsSpace(s[|s|-1]) {
      TrimRightOfLower(s[..|s|-1]);
      assert ToLower(s)[..|s|-1] == ToLower(s[..|s|-1]);
    }
  }

  function UpperChar(c: char): char {
    if 'a' <= c <= 'z' then c - 'a' + 'A' else c
  }

  function ToUpper(s: string): string {
    seq(|s|, i requires 0 <= i < |s| => UpperChar(s[i]))
  }

  predicate EqualFold(a: string, b: string) {
    ToLower(a) == ToLower(b)
  }

  const CAPITALS := "ABCDEFGHIJKLMNOPQRSTUVWXYZ"
  const SMALLS := "abcdefghijklmnopqrstuvwxyz"

  lemma LettersInOrder()
    ensures |CAPITALS| == |SMALLS| == 26
    ensures forall i :: 0 <= i < 26 ==> CAPITALS[i] == 'A' + i as char
    ensures forall i :: 0 <= i < 26 ==> SMALLS[i] == 'a' + i as char
  {
  }

  /** Case changes exactly the 26 letters, each to its own counterpart. */
  lemma LettersChangeCase(i: nat, c: char)
    requires i < 26
    ensures |CAPITALS| == |SMALLS| == 26
    ensures LowerChar(CAPITALS[i]) == SMALLS[i] && UpperChar(SMALLS[i]) == CAPITALS[i]
    ensures c !in CAPITALS ==> LowerChar(c) == c
    ensures c !in SMALLS ==> UpperChar(c) == c
  {
    LettersInOrder();
    if 'A' <= c <= 'Z' { assert CAPITALS[c as int - 'A' as int] == c; }
    if 'a' <= c <= 'z' { assert SMALLS[c as int - 'a' as int] == c; }
  }

  /** Texts that differ in case only stay so under either change of case. */
  lemma CaseChangesFold(s: string)
    ensures EqualFold(ToUpper(s), s) && EqualFold(ToLower(s), s)
  {
    assert forall i :: 0 <= i < |s| ==> LowerChar(UpperChar(s[i])) == LowerChar(s[i]);
  }

  predicate HasSuffix(s: string, suffix: string) {
    |suffix| <= |s| && s[|s|-|suffix|..] == suffix
  }

  function TrimSuffix(s: string, suffix: string): string {
    if HasSuffix(s, suffix) then s[..|s|-|suffix|] else s
  }

  function TrimPrefix(s: string, prefix: string): string {
    if prefix <= s then s[|prefix|..] else s
  }

  /** Prefixes and suffixes are what they are as concatenations, and trimming undoes adding them. */
  lemma AffixLaws(s: string, x: string)
    ensures HasSuffix(s, x) <==> exists pre :: s == pre + x
    ensures TrimSuffix(s + x, x) == s && TrimPrefix(x + s, x) == s
    ensures !HasSuffix(s, x) ==> TrimSuffix(s, x) == s
    ensures !(x <= s) ==> TrimPrefix(s, x) == s
  {
    if HasSuffix(s, x) { assert s == s[..|s|-|x|] + x; }
    assert (s + x)[..|s|] == s && (s + x)[|s|..] == x && (x + s)[|x|..] == s;
  }

  /** The pieces between the separators; one more piece than there are separators. */
  function Split(s: string, sep: char): (pieces: seq<string>)
    ensures |pieces| > 0
    decreases |s|
  {
    if s == "" then [""] else WithFirst(s[0], Split(s[1..], sep), sep)
  }

  /** The pieces of a text from those of the rest after its first character. */
  function WithFirst(c: char, rest: seq<string>, sep: char): (pieces: seq<string>)
    requires |rest| > 0
    ensures |pieces| > 0
  {
    if c == sep then [""] + rest else [[c] + rest[0]] + rest[1..]
  }

  lemma WithFirstConcat(c: char, x: seq<string>, y: seq<string>, sep: char)
    requires |x| > 0
    ensures WithFirst(c, x + y, sep) == WithFirst(c, x, sep) + y
  {
    assert (x + y)[1..] == x[1..] + y;
  }

  function Join(pieces: seq<string>, sep: char): string {
    if |pieces| == 0 then ""
    else if |pieces| == 1 then pieces[0]
    else pieces[0] + [sep] + Join(pieces[1..], sep)
  }

  lemma {:induction false} JoinSplit(s: string, sep: char)
    ensures Join(Split(s, sep), sep) == s
  {
    if s != "" {
      JoinSplit(s[1..], sep);
      var rest := Split(s[1..], sep);
      assert s == [s[0]] + s[1..];
      if s[0] == sep {
        assert Split(s, sep)[1..] == rest;
      } else {
        assert Split(s, sep)[1..] == rest[1..];
      }
    }
  }

  lemma {:induction false} SplitConcat(a: string, b: string, sep: char)
    ensures Split(a + [sep] + b, sep) == Split(a, sep) + Split(b, sep)
  {
    var whole := a + [sep] + b;
    if a == "" {
      assert whole[1..] == b;
    } else {
      assert whole[1..] == a[1..] + [sep] + b && whole[0] == a[0];
      SplitConcat(a[1..], b, sep);
      WithFirstConcat(a[0], Split(a[1..], sep), Split(b, sep), sep);
    }
  }

  lemma {:induction false} JoinConcat(x: seq<string>, y: seq<string>, sep: char)
    requires |x| > 0 && |y| > 0
    ensures Join(x + y, sep) == Join(x, sep) + [sep] + Join(y, sep)
  {
    if |x| == 1 {
      assert (x + y)[1..] == y;
    } else {
      assert (x + y)[1..] == x[1..] + y;
      JoinConcat(x[1..], y, sep);
    }
  }
}
