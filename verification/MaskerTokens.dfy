/** What _strip_for_scanning of scripts/quality/junk_detectors.py takes for strings, comments and
    regular expressions, by their form alone: a grammar of tokens that determines the masked text. */
module MaskerTokens {
  import opened Sections
  import opened Masker

  // ---- strings ----

  /** How many backslashes stand together just before `e`, none before `i` counted. */
  function Backslashes(s: string, i: nat, e: nat): nat
    requires i <= e <= |s|
    decreases e
  {
    if e > i && s[e - 1] == '\\' then 1 + Backslashes(s, i, e - 1) else 0
  }

  /** The quote stands at `e` and is not escaped. */
  predicate QuoteAt(s: string, i: nat, e: nat, quote: char)
    requires i <= e <= |s|
  {
    e < |s| && s[e] == quote && Backslashes(s, i, e) % 2 == 0
  }

  /** The first such place from `i` on, or the end of the text. */
  ghost predicate FirstQuote(s: string, i: nat, e: nat, quote: char) {
    i <= e <= |s| && (e < |s| ==> QuoteAt(s, i, e, quote)) && forall k :: i <= k < e ==> !QuoteAt(s, i, k, quote)
  }

  lemma {:induction false} PairOfBackslashes(s: string, i: nat, e: nat)
    requires i + 2 <= e <= |s| && s[i] == '\\'
    ensures Backslashes(s, i, e) % 2 == Backslashes(s, i + 2, e) % 2
    decreases e
  {
    if e > i + 2 {
      if s[e - 1] == '\\' { PairOfBackslashes(s, i, e - 1); }
    } else if s[i + 1] == '\\' {
      assert Backslashes(s, i, i + 1) == 1 + Backslashes(s, i, i);
    }
  }

  lemma {:induction false} NoBackslashBefore(s: string, i: nat, e: nat)
    requires i < e <= |s| && s[i] != '\\'
    ensures Backslashes(s, i, e) == Backslashes(s, i + 1, e)
    decreases e
  {
    if e > i + 1 { if s[e - 1] == '\\' { NoBackslashBefore(s, i, e - 1); } }
  }

  lemma {:induction false} StringCloseIs(s: string, i: nat, quote: char)
    requires i <= |s| && quote != '\\'
    ensures FirstQuote(s, i, StringClose(s, i, quote), quote)
    decreases |s| - i
  {
    var e := StringClose(s, i, quote);
    if i < |s| && s[i] == '\\' {
      assert Backslashes(s, i, i + 1) == 1 + Backslashes(s, i, i);
      if i + 1 < |s| {
        StringCloseIs(s, i + 2, quote);
        forall k | i + 2 <= k <= e && k < |s| ensures QuoteAt(s, i, k, quote) <==> QuoteAt(s, i + 2, k, quote) {
          PairOfBackslashes(s, i, k);
        }
      }
    } else if i < |s| && s[i] != quote {
      StringCloseIs(s, i + 1, quote);
      forall k | i + 1 <= k <= e && k < |s| ensures QuoteAt(s, i, k, quote) <==> QuoteAt(s, i + 1, k, quote) {
        NoBackslashBefore(s, i, k);
      }
    }
  }

  // ---- comments ----

  /** The first closing of a comment from `i` on, if there is one. */
  ghost predicate FirstClosing(s: string, i: nat, e: nat) {
    i <= e && Closes(s, e) && forall k :: i <= k < e ==> !Closes(s, k)
  }

  lemma {:induction false} CommentCloseIs(s: string, i: nat)
    requires i < |s|
    ensures var e := CommentClose(s, i);
            if Closes(s, e) then FirstClosing(s, i, e) else e + 1 == |s| && forall k :: i <= k ==> !Closes(s, k)
    decreases |s| - i
  {
    if i + 1 < |s| && !Closes(s, i) { CommentCloseIs(s, i + 1); }
  }

  // ---- regular expressions ----

  /** Inside brackets: anything but a bracket that closes or a line break, or else escaped. */
  predicate ClassBody(s: string, i: nat, n: nat)
    requires i <= n <= |s|
    decreases n - i
  {
    || i == n
    || (s[i] == '\\' && i + 2 <= n && ClassBody(s, i + 2, n))
    || (s[i] != '\\' && s[i] != ']' && s[i] != '\n' && ClassBody(s, i + 1, n))
  }

  /** The body of a regular expression: escaped characters, classes, and others that are no slash. */
  ghost predicate RegexBody(s: string, i: nat, p: nat)
    requires i <= p <= |s|
    decreases p - i
  {
    || i == p
    || (s[i] == '\\' && i + 2 <= p && RegexBody(s, i + 2, p))
    || (s[i] == '[' && exists n :: i < n < p && ClassBody(s, i + 1, n) && s[n] == ']' && RegexBody(s, n + 1, p))
    || (s[i] != '\\' && s[i] != '[' && s[i] != '/' && s[i] != '\n' && RegexBody(s, i + 1, p))
  }

  /** The flags: all the letters there are. */
  ghost predicate AllLetters(l: Letters, s: string, i: nat, e: nat) {
    i <= e <= |s| && (forall k :: i <= k < e ==> l.alpha(s[k])) && (e < |s| ==> !l.alpha(s[e]))
  }

  /** From `i` on: a body, a slash, and flags up to `e`. */
  ghost predicate RegexFrom(l: Letters, s: string, i: nat, e: nat) {
    exists p :: i <= p < |s| && RegexBody(s, i, p) && s[p] == '/' && AllLetters(l, s, p + 1, e)
  }

  lemma {:induction false} LettersEndIs(l: Letters, s: string, i: nat)
    requires i <= |s|
    ensures AllLetters(l, s, i, LettersEnd(l, s, i))
    decreases |s| - i
  {
    if i < |s| && l.alpha(s[i]) { LettersEndIs(l, s, i + 1); }
  }

  lemma {:induction false} ClassCloses(l: Letters, s: string, i: nat, n: nat)
    requires i <= n < |s| && ClassBody(s, i, n) && s[n] == ']'
    ensures RegexClose(l, s, i, true) == RegexClose(l, s, n + 1, false)
    decreases n - i
  {
    if i < n { ClassCloses(l, s, if s[i] == '\\' then i + 2 else i + 1, n); }
  }

  lemma {:induction false} BodyCloses(l: Letters, s: string, i: nat, p: nat)
    requires i <= p < |s| && RegexBody(s, i, p) && s[p] == '/'
    ensures RegexClose(l, s, i, false) == Some(LettersEnd(l, s, p + 1))
    decreases p - i
  {
    if i < p {
      if s[i] == '\\' {
        BodyCloses(l, s, i + 2, p);
      } else if s[i] == '[' {
        var n :| i < n < p && ClassBody(s, i + 1, n) && s[n] == ']' && RegexBody(s, n + 1, p);
        ClassCloses(l, s, i + 1, n);
        BodyCloses(l, s, n + 1, p);
      } else {
        BodyCloses(l, s, i + 1, p);
      }
    }
  }

  lemma {:induction false} ClosedClass(l: Letters, s: string, i: nat) returns (n: nat)
    requires i <= |s| && RegexClose(l, s, i, true).Some?
    ensures i <= n < |s| && ClassBody(s, i, n) && s[n] == ']'
    ensures RegexClose(l, s, n + 1, false) == RegexClose(l, s, i, true)
    decreases |s| - i
  {
    if s[i] == '\\' {
      n := ClosedClass(l, s, i + 2);
    } else if s[i] == ']' {
      n := i;
    } else {
      n := ClosedClass(l, s, i + 1);
    }
  }

  /** Where the body ends. */
  lemma {:induction false} ClosedBody(l: Letters, s: string, i: nat) returns (p: nat)
    requires i <= |s| && RegexClose(l, s, i, false).Some?
    ensures i <= p < |s| && s[p] == '/' && RegexBody(s, i, p)
    ensures RegexClose(l, s, i, false) == Some(LettersEnd(l, s, p + 1))
    decreases |s| - i
  {
    if s[i] == '\\' {
      p := ClosedBody(l, s, i + 2);
    } else if s[i] == '[' {
      var n := ClosedClass(l, s, i + 1);
      p := ClosedBody(l, s, n + 1);
    } else if s[i] == '/' {
      p := i;
    } else {
      p := ClosedBody(l, s, i + 1);
    }
  }

  lemma RegexCloseIff(l: Letters, s: string, i: nat, e: nat)
    requires i <= |s|
    ensures RegexClose(l, s, i, false) == Some(e) <==> RegexFrom(l, s, i, e)
  {
    if RegexClose(l, s, i, false).Some? {
      var p := ClosedBody(l, s, i);
      LettersEndIs(l, s, p + 1);
    }
    if p :| i <= p < |s| && RegexBody(s, i, p) && s[p] == '/' && AllLetters(l, s, p + 1, e) {
      BodyCloses(l, s, i, p);
      LettersEndIs(l, s, p + 1);
    }
  }

  // ---- where one can start ----

  predicate IsSign(c: char) { c in "(,=:[!&|?{;>~^%" }

  predicate IsWord(w: string) {
    || w == "return" || w == "typeof" || w == "instanceof" || w == "in" || w == "of" || w == "new" || w == "delete"
    || w == "void" || w == "throw" || w == "case" || w == "do" || w == "else" || w == "yield" || w == "await"
  }

  lemma SameCharacters(l: Letters, c: char)
    ensures WordChar(l, c) <==> l.alnum(c) || c in "_$"
    ensures IsGap(c) <==> c in " \t\r\n"
  {
  }

  /** A whole word goes from `j` to `n`. */
  ghost predicate WholeWord(l: Letters, done: string, j: nat, n: nat) {
    && j < n <= |done| && (forall k :: j <= k < n ==> WordChar(l, done[k]))
    && (j > 0 ==> !WordChar(l, done[j - 1]))
  }

  /** A sign or a word before `n` after which an expression comes. */
  ghost predicate Announced(l: Letters, done: string, n: nat) {
    0 < n <= |done| && (IsSign(done[n - 1]) || exists j: nat :: WholeWord(l, done, j, n) && IsWord(done[j..n]))
  }

  /** From `n` on there is only white space. */
  ghost predicate OnlyGaps(done: string, n: nat) {
    && n <= |done| && (forall k :: n <= k < |done| ==> IsGap(done[k])) && (n > 0 ==> !IsGap(done[n - 1]))
  }

  /** Nothing stands before it, or something that announces an expression. */
  ghost predicate Expected(l: Letters, done: string) {
    exists n :: OnlyGaps(done, n) && (n == 0 || Announced(l, done, n))
  }

  lemma {:induction false} TrimEndIs(done: string)
    ensures OnlyGaps(done, TrimEnd(done))
  {
    if done != "" && IsGap(done[|done| - 1]) { TrimEndIs(done[..|done| - 1]); }
  }

  lemma {:induction false} WordStartIs(l: Letters, done: string, n: nat)
    requires 0 < n <= |done| && WordChar(l, done[n - 1])
    ensures WholeWord(l, done, WordStart(l, done, n), n)
  {
    if n > 1 && WordChar(l, done[n - 2]) { WordStartIs(l, done, n - 1); }
  }

  lemma SameSign(c: char)
    ensures IsSign(c) <==> c in PRECEDERS
  {
  }

  lemma SameWord(w: string)
    ensures IsWord(w) <==> w in KEYWORDS
  {
  }

  lemma AnnouncedIff(l: Letters, done: string, n: nat)
    requires 0 < n <= |done|
    ensures Announced(l, done, n) <==>
            done[n - 1] in PRECEDERS
            || (WordChar(l, done[n - 1]) && done[WordStart(l, done, n)..n] in KEYWORDS)
  {
    SameSign(done[n - 1]);
    if WordChar(l, done[n - 1]) {
      var start := WordStart(l, done, n);
      WordStartIs(l, done, n);
      SameWord(done[start..n]);
      assert WholeWord(l, done, start, n);
      assert forall j: nat :: WholeWord(l, done, j, n) ==> j == start;
    }
  }

  lemma ExpectingIff(l: Letters, done: string)
    ensures Expecting(l, done) <==> Expected(l, done)
  {
    var n := TrimEnd(done);
    TrimEndIs(done);
    if n > 0 { AnnouncedIff(l, done, n); }
    assert forall m :: OnlyGaps(done, m) ==> m == n;
  }

  // ---- tokens ----

  datatype Kind = Quoted | LineComment | BlockComment | Regex | Other

  predicate Starts(s: string, i: nat, c: char) { i + 1 < |s| && s[i] == '/' && s[i + 1] == c }

  predicate StartsComment(s: string, i: nat) { Starts(s, i, '/') || Starts(s, i, '*') }

  predicate IsQuoteSign(c: char) { c in "\"'`" }

  /** A string from the quote at `i`: up to its closing quote, or to the end of the text. */
  ghost predicate IsQuoted(s: string, i: nat, e: nat) {
    && i < e <= |s| && IsQuoteSign(s[i])
    && ((e > i + 1 && FirstQuote(s, i + 1, e - 1, s[i])) || (e == |s| && FirstQuote(s, i + 1, e, s[i])))
  }

  ghost predicate IsLineComment(s: string, i: nat, e: nat) {
    i < e <= |s| && Starts(s, i, '/') && (forall k :: i <= k < e ==> s[k] != '\n') && (e < |s| ==> s[e] == '\n')
  }

  ghost predicate IsBlockComment(s: string, i: nat, e: nat) {
    && i + 1 < e <= |s| && Starts(s, i, '*')
    && (FirstClosing(s, i, e - 2) || (e == |s| && forall k :: i <= k ==> !Closes(s, k)))
  }

  ghost predicate IsRegex(l: Letters, s: string, done: string, i: nat, e: nat) {
    i < e <= |s| && s[i] == '/' && !StartsComment(s, i) && Expected(l, done) && RegexFrom(l, s, i + 1, e)
  }

  /** The token from where `done`, which has been put out, ends. */
  ghost predicate IsToken(l: Letters, s: string, done: string, e: nat, kind: Kind) {
    && |done| < e <= |s|
    && match kind
       case Quoted => IsQuoted(s, |done|, e)
       case LineComment => IsLineComment(s, |done|, e)
       case BlockComment => IsBlockComment(s, |done|, e)
       case Regex => IsRegex(l, s, done, |done|, e)
       case Other =>
         && e == |done| + 1 && !IsQuoteSign(s[|done|]) && !StartsComment(s, |done|)
         && forall end: nat :: !IsRegex(l, s, done, |done|, end)
  }

  /** What is put out in the place `k` of it: the quotes of a string stay, and the last character of
      a comment that is not closed; what is blanked keeps its line breaks, but for a regular expression. */
  function PutAt(s: string, i: nat, e: nat, kind: Kind, k: nat): char
    requires i <= k < e <= |s|
  {
    match kind
    case Quoted => if k == i || (k == e - 1 && QuoteAt(s, i + 1, k, s[i])) then s[k] else Blanked(s[k])
    case LineComment => ' '
    case BlockComment => if k == e - 1 && !(k > i && Closes(s, k - 1)) then s[k] else Blanked(s[k])
    case Regex => ' '
    case Other => s[k]
  }

  ghost predicate PutOut(s: string, i: nat, e: nat, kind: Kind, c: string) {
    i < e <= |s| && |c| == e - i && forall k :: i <= k < e ==> c[k - i] == PutAt(s, i, e, kind, k)
  }

  // ---- every token is one of these ----

  lemma QuotedChunk(l: Letters, s: string, done: string)
    requires |done| < |s| && IsQuote(s[|done|])
    ensures var (i, c) := (|done|, Chunk(l, s, done));
            IsQuoted(s, i, i + |c|) && PutOut(s, i, i + |c|, Quoted, c)
  {
    var i := |done|;
    StringCloseIs(s, i + 1, s[i]);
  }

  lemma LineChunk(l: Letters, s: string, done: string)
    requires |done| < |s| && Starts(s, |done|, '/')
    ensures var (i, c) := (|done|, Chunk(l, s, done));
            IsLineComment(s, i, i + |c|) && PutOut(s, i, i + |c|, LineComment, c)
  {
    LineEndStops(s, |done|);
  }

  lemma {:induction false} LineEndStops(s: string, i: nat)
    requires i <= |s|
    ensures var e := LineEnd(s, i); e < |s| ==> s[e] == '\n'
    ensures i < |s| && s[i] != '\n' ==> LineEnd(s, i) > i
    decreases |s| - i
  {
    if i < |s| && s[i] != '\n' { LineEndStops(s, i + 1); }
  }

  lemma BlockChunk(l: Letters, s: string, done: string)
    requires |done| < |s| && Starts(s, |done|, '*')
    ensures var (i, c) := (|done|, Chunk(l, s, done));
            IsBlockComment(s, i, i + |c|) && PutOut(s, i, i + |c|, BlockComment, c)
  {
    CommentCloseIs(s, |done|);
  }

  lemma SlashChunk(l: Letters, s: string, done: string)
    requires |done| < |s| && s[|done|] == '/' && !StartsComment(s, |done|)
    ensures var (i, c) := (|done|, Chunk(l, s, done));
            var kind := if RegexEnd(l, s, done).Some? then Regex else Other;
            IsToken(l, s, done, i + |c|, kind) && PutOut(s, i, i + |c|, kind, c)
  {
    ExpectingIff(l, done);
    forall e: nat ensures RegexEnd(l, s, done) == Some(e) <==> IsRegex(l, s, done, |done|, e) {
      RegexCloseIff(l, s, |done| + 1, e);
    }
  }

  function KindAt(l: Letters, s: string, done: string): Kind
    requires |done| < |s|
  {
    var i := |done|;
    if IsQuote(s[i]) then Quoted
    else if Starts(s, i, '/') then LineComment
    else if Starts(s, i, '*') then BlockComment
    else if s[i] == '/' && RegexEnd(l, s, done).Some? then Regex
    else Other
  }

  lemma ChunkIsToken(l: Letters, s: string, done: string)
    requires |done| < |s|
    ensures var (i, c, kind) := (|done|, Chunk(l, s, done), KindAt(l, s, done));
            IsToken(l, s, done, i + |c|, kind) && PutOut(s, i, i + |c|, kind, c)
  {
    var i := |done|;
    if IsQuote(s[i]) {
      QuotedChunk(l, s, done);
    } else if Starts(s, i, '/') {
      LineChunk(l, s, done);
    } else if Starts(s, i, '*') {
      BlockChunk(l, s, done);
    } else if s[i] == '/' {
      SlashChunk(l, s, done);
    }
  }

  /** There is only one way to take it. */
  lemma OneToken(l: Letters, s: string, done: string, e: nat, kind: Kind, f: nat, other: Kind)
    requires IsToken(l, s, done, e, kind) && IsToken(l, s, done, f, other)
    ensures e == f && kind == other
  {
    if kind == Regex && other == Regex {
      RegexCloseIff(l, s, |done| + 1, e);
      RegexCloseIff(l, s, |done| + 1, f);
    }
  }

  /** From `i` to `e` the text `r` puts out a token of `s`. */
  ghost predicate PutsOne(l: Letters, s: string, r: string, i: nat, e: nat)
    requires i <= e <= |s| == |r|
  {
    exists kind :: IsToken(l, s, r[..i], e, kind) && PutOut(s, i, e, kind, r[i..e])
  }

  /** From `i` on it puts out one token after the other. */
  ghost predicate Tokenised(l: Letters, s: string, r: string, i: nat)
    requires i <= |s| == |r|
    decreases |s| - i
  {
    i == |s| || exists e: nat :: i < e <= |s| && PutsOne(l, s, r, i, e) && Tokenised(l, s, r, e)
  }

  lemma SamePutOut(s: string, i: nat, e: nat, kind: Kind, c: string, d: string)
    requires PutOut(s, i, e, kind, c) && PutOut(s, i, e, kind, d)
    ensures c == d
  {
    forall k | 0 <= k < |c| ensures c[k] == d[k] {
      assert c[(i + k) - i] == PutAt(s, i, e, kind, i + k) == d[(i + k) - i];
    }
  }

  lemma PutsOneIff(l: Letters, s: string, done: string, r: string, e: nat)
    requires |done| < e <= |s| == |r| && done <= r
    ensures PutsOne(l, s, r, |done|, e) <==> done + Chunk(l, s, done) == r[..e]
  {
    var i, c := |done|, Chunk(l, s, done);
    assert r[..i] == done;
    ChunkIsToken(l, s, done);
    if kind :| IsToken(l, s, done, e, kind) && PutOut(s, i, e, kind, r[i..e]) {
      OneToken(l, s, done, e, kind, i + |c|, KindAt(l, s, done));
      SamePutOut(s, i, e, kind, r[i..e], c);
      assert r[..e] == done + r[i..e];
    }
    if done + c == r[..e] {
      assert r[i..e] == r[..e][i..] == c;
    }
  }

  /** The masked text is the one that puts out the tokens of the source. */
  lemma {:induction false} MaskIffTokenised(l: Letters, s: string, done: string, r: string)
    requires |done| <= |s| == |r| && done <= r
    ensures r == Mask(l, s, done) <==> Tokenised(l, s, r, |done|)
    decreases |s| - |done|
  {
    var i := |done|;
    if i == |s| {
      assert r == done;
    } else {
      var more := done + Chunk(l, s, done);
      if more <= r {
        assert r[..|more|] == more;
        MaskIffTokenised(l, s, more, r);
        PutsOneIff(l, s, done, r, |more|);
      } else {
        assert r != Mask(l, s, done);
      }
      forall e: nat | i < e <= |s| ensures PutsOne(l, s, r, i, e) <==> more == r[..e] {
        PutsOneIff(l, s, done, r, e);
      }
    }
  }
}
