/** _strip_for_scanning and _match_paren of scripts/quality/junk_detectors.py: strings,
    comments and regular expressions blanked out in place, so that parentheses can be matched. */
module Masker {
  import opened Sections
  import Text

  /** `str.isalnum` and `str.isalpha`. */
  datatype Letters = Letters(alnum: char -> bool, alpha: char -> bool)

  predicate Plausible(l: Letters) {
    !l.alpha('\n') && !l.alnum('\n') && !l.alpha('\\') && !l.alnum('\\')
  }

  predicate IsQuote(c: char) { c == '"' || c == '\'' || c == '`' }

  predicate IsGap(c: char) { c == ' ' || c == '\t' || c == '\r' || c == '\n' }

  /** Contents are blanked, line breaks kept. */
  function Blanked(c: char): char { if c == '\n' then c else ' ' }

  function Blank(s: string): (r: string)
    ensures |r| == |s| && forall k :: 0 <= k < |s| ==> r[k] == Blanked(s[k])
  {
    if s == "" then "" else Blank(s[..|s| - 1]) + [Blanked(s[|s| - 1])]
  }

  function Spaces(n: nat): (r: string)
    ensures |r| == n && forall k :: 0 <= k < n ==> r[k] == ' '
  {
    if n == 0 then "" else Spaces(n - 1) + [' ']
  }

  // ---- where things end ----

  /** Where the string with this quote closes, from `i` on. */
  function StringClose(s: string, i: nat, quote: char): (e: nat)
    requires i <= |s|
    ensures i <= e <= |s| && (e < |s| ==> s[e] == quote)
    decreases |s| - i
  {
    if i == |s| then i
    else if s[i] == '\\' then if i + 1 == |s| then |s| else StringClose(s, i + 2, quote)
    else if s[i] == quote then i
    else StringClose(s, i + 1, quote)
  }

  function LineEnd(s: string, i: nat): (e: nat)
    requires i <= |s|
    ensures i <= e <= |s| && forall k :: i <= k < e ==> s[k] != '\n'
    decreases |s| - i
  {
    if i < |s| && s[i] != '\n' then LineEnd(s, i + 1) else i
  }

  predicate Closes(s: string, i: nat) { i + 1 < |s| && s[i] == '*' && s[i + 1] == '/' }

  // Where the comment closes, from `i` on, or else the last character.
  function CommentClose(s: string, i: nat): (e: nat)
    requires i < |s|
    ensures i <= e < |s| && (Closes(s, e) || e + 1 == |s|)
    decreases |s| - i
  {
    if i + 1 == |s| || Closes(s, i) then i else CommentClose(s, i + 1)
  }

  function LettersEnd(l: Letters, s: string, i: nat): (e: nat)
    requires i <= |s|
    ensures i <= e <= |s| && forall k :: i <= k < e ==> l.alpha(s[k])
    decreases |s| - i
  {
    if i < |s| && l.alpha(s[i]) then LettersEnd(l, s, i + 1) else i
  }

  /** Just past the regular expression whose body goes on at `i`. */
  function RegexClose(l: Letters, s: string, i: nat, inClass: bool): (e: Option<nat>)
    requires i <= |s|
    ensures e.Some? ==> i < e.value <= |s|
    decreases |s| - i
  {
    if i == |s| then None
    else if s[i] == '\\' then if i + 1 == |s| then None else RegexClose(l, s, i + 2, inClass)
    else if s[i] == '\n' then None
    else if inClass then RegexClose(l, s, i + 1, s[i] != ']')
    else if s[i] == '[' then RegexClose(l, s, i + 1, true)
    else if s[i] == '/' then Some(LettersEnd(l, s, i + 1))
    else RegexClose(l, s, i + 1, false)
  }

  // ---- whether a slash opens a regular expression ----

  const PRECEDERS := {'(', ',', '=', ':', '[', '!', '&', '|', '?', '{', ';', '>', '~', '^', '%'}

  const KEYWORDS := {"return", "typeof", "instanceof", "in", "of", "new", "delete", "void",
                     "throw", "case", "do", "else", "yield", "await"}

  predicate WordChar(l: Letters, c: char) { l.alnum(c) || c == '_' || c == '$' }

  /** How much is left without the white space at the end. */
  function TrimEnd(done: string): (n: nat)
    ensures n <= |done| && (n > 0 ==> !IsGap(done[n - 1]))
  {
    if done != "" && IsGap(done[|done| - 1]) then TrimEnd(done[..|done| - 1]) else |done|
  }

  /** Where the word that ends at `n` starts. */
  function WordStart(l: Letters, done: string, n: nat): (j: nat)
    requires n <= |done|
    ensures j <= n
  {
    if n > 0 && WordChar(l, done[n - 1]) then WordStart(l, done, n - 1) else n
  }

  /** An expression is expected after what has been put out. */
  predicate Expecting(l: Letters, done: string) {
    var n := TrimEnd(done);
    n == 0 || done[n - 1] in PRECEDERS
    || (WordChar(l, done[n - 1]) && done[WordStart(l, done, n)..n] in KEYWORDS)
  }

  /** `_regex_literal_end`. */
  function RegexEnd(l: Letters, s: string, done: string): (e: Option<nat>)
    requires |done| < |s|
    ensures e.Some? ==> |done| + 1 < e.value <= |s|
  {
    if Expecting(l, done) then RegexClose(l, s, |done| + 1, false) else None
  }

  // ---- one token after the other ----

  /** What is put out for the token that starts where `done` ends. */
  function Chunk(l: Letters, s: string, done: string): (r: string)
    requires |done| < |s|
    ensures 0 < |r| <= |s| - |done|
  {
    var i := |done|;
    if IsQuote(s[i]) then
      var close := StringClose(s, i + 1, s[i]);
      if close < |s| then [s[i]] + Blank(s[i + 1..close]) + [s[close]] else [s[i]] + Blank(s[i + 1..])
    else if i + 1 < |s| && s[i] == '/' && s[i + 1] == '/' then Blank(s[i..LineEnd(s, i)])
    else if i + 1 < |s| && s[i] == '/' && s[i + 1] == '*' then
      var close := CommentClose(s, i);
      if Closes(s, close) then Blank(s[i..close + 2]) else Blank(s[i..close]) + [s[close]]
    else if s[i] == '/' && RegexEnd(l, s, done).Some? then Spaces(RegexEnd(l, s, done).value - i)
    else [s[i]]
  }

  /** The whole text, token by token. */
  function Mask(l: Letters, s: string, done: string): (r: string)
    requires |done| <= |s|
    ensures |r| == |s| && done <= r
    decreases |s| - |done|
  {
    if |done| == |s| then done else Mask(l, s, done + Chunk(l, s, done))
  }

  // ---- the index loops ----

  /** Back over the white space put out last. */
  method BackOverGaps(done: string) returns (j: nat)
    ensures j == TrimEnd(done)
  {
    j := |done|;
    assert done[..j] == done;
    while j > 0 && IsGap(done[j - 1])
      invariant 0 <= j <= |done| && TrimEnd(done) == TrimEnd(done[..j])
    {
      assert done[..j][..j - 1] == done[..j - 1];
      j := j - 1;
    }
  }

  /** Back over the word that ends at `end`. */
  method BackOverWord(l: Letters, done: string, end: nat) returns (j: nat)
    requires end <= |done|
    ensures j == WordStart(l, done, end)
  {
    j := end;
    while j > 0 && WordChar(l, done[j - 1])
      invariant 0 <= j <= end && WordStart(l, done, end) == WordStart(l, done, j)
    {
      j := j - 1;
    }
  }

  /** `_regex_literal_end`: -1 where no regular expression starts. */
  method RegexLiteralEnd(l: Letters, s: string, done: string) returns (end: int)
    requires |done| < |s|
    ensures end == if RegexEnd(l, s, done).Some? then RegexEnd(l, s, done).value else -1
  {
    var j := BackOverGaps(done);
    if j > 0 && done[j - 1] !in PRECEDERS {
      if !WordChar(l, done[j - 1]) { return -1; }
      var start := BackOverWord(l, done, j);
      if done[start..j] !in KEYWORDS { return -1; }
    }
    end := ScanRegex(l, s, |done| + 1);
  }

  /** Consumes the literal: escapes and classes, up to the flags. */
  method ScanRegex(l: Letters, s: string, from: nat) returns (end: int)
    requires from <= |s|
    ensures end == if RegexClose(l, s, from, false).Some? then RegexClose(l, s, from, false).value else -1
  {
    var i, inClass := from, false;
    while i < |s|
      invariant from <= i <= |s| && RegexClose(l, s, from, false) == RegexClose(l, s, i, inClass)
      decreases |s| - i
    {
      var c := s[i];
      if c == '\\' {
        if i + 1 == |s| { return -1; }
        i := i + 2;
      } else {
        if c == '\n' { return -1; }
        if inClass {
          if c == ']' { inClass := false; }
        } else if c == '[' {
          inClass := true;
        } else if c == '/' {
          var e := i + 1;
          while e < |s| && l.alpha(s[e])
            invariant i < e <= |s| && LettersEnd(l, s, i + 1) == LettersEnd(l, s, e)
          {
            e := e + 1;
          }
          return e;
        }
        i := i + 1;
      }
    }
    return -1;
  }

  /** What an array holds while tokens from `i` on are being blanked out up to `j`. */
  ghost predicate BlankedUpTo(out: array<char>, was: seq<char>, s: string, i: nat, j: nat)
    reads out
  {
    && out.Length == |was| == |s| && i <= j <= |s|
    && (forall k :: 0 <= k < i ==> out[k] == was[k])
    && (forall k :: i <= k < j ==> out[k] == Blanked(s[k]))
    && (forall k :: j <= k < |s| ==> out[k] == was[k] == s[k])
  }

  /** The contents of a string: the loop up to its closing quote. */
  method BlankContents(out: array<char>, s: string, i: nat, quote: char) returns (j: nat)
    requires out.Length == |s| && i <= |s| && forall k :: i <= k < |s| ==> out[k] == s[k]
    modifies out
    ensures j == StringClose(s, i, quote) && BlankedUpTo(out, old(out[..]), s, i, j)
  {
    ghost var was := out[..];
    j := i;
    while j < |s| && (s[j] == '\\' || s[j] != quote)
      invariant i <= j <= |s| && StringClose(s, i, quote) == StringClose(s, j, quote)
      invariant BlankedUpTo(out, was, s, i, j)
      decreases |s| - j
    {
      if s[j] == '\\' {
        out[j] := ' ';
        j := j + 1;
        if j < |s| {
          if s[j] != '\n' { out[j] := ' '; }
          j := j + 1;
        }
      } else {
        if s[j] != '\n' { out[j] := ' '; }
        j := j + 1;
      }
    }
  }

  /** A line comment: the loop up to the line break. */
  method BlankLine(out: array<char>, s: string, i: nat) returns (j: nat)
    requires out.Length == |s| && i <= |s| && forall k :: i <= k < |s| ==> out[k] == s[k]
    modifies out
    ensures j == LineEnd(s, i) && BlankedUpTo(out, old(out[..]), s, i, j)
  {
    ghost var was := out[..];
    j := i;
    while j < |s| && s[j] != '\n'
      invariant i <= j <= |s| && LineEnd(s, i) == LineEnd(s, j)
      invariant BlankedUpTo(out, was, s, i, j)
    {
      out[j] := ' ';
      j := j + 1;
    }
  }

  /** A block comment: the loop up to where it closes, or to the last character. */
  method BlankComment(out: array<char>, s: string, i: nat) returns (j: nat)
    requires out.Length == |s| && i < |s| && forall k :: i <= k < |s| ==> out[k] == s[k]
    modifies out
    ensures j == CommentClose(s, i) && BlankedUpTo(out, old(out[..]), s, i, j)
  {
    ghost var was := out[..];
    j := i;
    while j + 1 < |s| && !Closes(s, j)
      invariant i <= j < |s| && CommentClose(s, i) == CommentClose(s, j)
      invariant BlankedUpTo(out, was, s, i, j)
    {
      if s[j] != '\n' { out[j] := ' '; }
      j := j + 1;
    }
  }

  /** What `BlankedUpTo` says of the text put out. */
  lemma BlankedText(out: array<char>, was: seq<char>, s: string, i: nat, j: nat)
    requires BlankedUpTo(out, was, s, i, j)
    ensures out[..j] == was[..i] + Blank(s[i..j]) && out[j..] == s[j..]
  {
  }

  /** Up to `i` the text put out so far, from there on the source. */
  ghost predicate InStep(out: array<char>, s: string, i: nat)
    reads out
  {
    out.Length == |s| && i <= |s| && forall k :: i <= k < |s| ==> out[k] == s[k]
  }

  ghost predicate TokenDone(l: Letters, out: array<char>, s: string, done: string, e: nat)
    reads out
  {
    InStep(out, s, e) && |done| < e <= |s| && out[..e] == done + Chunk(l, s, done)
  }

  method MaskString(l: Letters, out: array<char>, s: string, i: nat) returns (e: nat)
    requires InStep(out, s, i) && i < |s| && IsQuote(s[i])
    modifies out
    ensures TokenDone(l, out, s, old(out[..i]), e)
  {
    ghost var was := out[..];
    ghost var done := out[..i];
    e := BlankContents(out, s, i + 1, s[i]);
    BlankedText(out, was, s, i + 1, e);
    assert was[..i + 1] == done + [s[i]];
    Text.Regroup(done, [s[i]], Blank(s[i + 1..e]));
    if e < |s| {
      assert out[..e + 1] == out[..e] + [s[e]];
      Text.Regroup(done, [s[i]] + Blank(s[i + 1..e]), [s[e]]);
      e := e + 1;
    } else {
      assert s[i + 1..e] == s[i + 1..];
    }
  }

  method MaskLineComment(l: Letters, out: array<char>, s: string, i: nat) returns (e: nat)
    requires InStep(out, s, i) && i + 1 < |s| && s[i] == '/' && s[i + 1] == '/'
    modifies out
    ensures TokenDone(l, out, s, old(out[..i]), e)
  {
    ghost var was := out[..];
    e := BlankLine(out, s, i);
    BlankedText(out, was, s, i, e);
    assert was[..i] == old(out[..i]);
  }

  method MaskBlockComment(l: Letters, out: array<char>, s: string, i: nat) returns (e: nat)
    requires InStep(out, s, i) && i + 1 < |s| && s[i] == '/' && s[i + 1] == '*'
    modifies out
    ensures TokenDone(l, out, s, old(out[..i]), e)
  {
    ghost var was := out[..];
    ghost var done := out[..i];
    assert was[..i] == done;
    e := BlankComment(out, s, i);
    BlankedText(out, was, s, i, e);
    ghost var blanked := out[..e];
    if Closes(s, e) {
      out[e], out[e + 1] := ' ', ' ';
      assert out[..e + 2] == blanked + [' ', ' '];
      assert out[..e + 2] == done + Blank(s[i..e + 2]);
      e := e + 2;
    } else {
      assert out[..e + 1] == blanked + [s[e]];
      assert out[..e + 1] == done + (Blank(s[i..e]) + [s[e]]);
      e := e + 1;
    }
  }

  /** A slash: a regular expression is blanked whole, a division stays. */
  method MaskSlash(l: Letters, out: array<char>, s: string, i: nat) returns (e: nat)
    requires InStep(out, s, i) && i < |s| && s[i] == '/'
    requires i + 1 < |s| ==> s[i + 1] != '/' && s[i + 1] != '*'
    modifies out
    ensures TokenDone(l, out, s, old(out[..i]), e)
  {
    ghost var done := out[..i];
    var end := RegexLiteralEnd(l, s, out[..i]);
    if end == -1 {
      e := i + 1;
      assert out[..e] == done + [s[i]];
    } else {
      var j := i;
      while j < end
        invariant i <= j <= end && InStep(out, s, j)
        invariant forall k :: 0 <= k < i ==> out[k] == done[k]
        invariant forall k :: i <= k < j ==> out[k] == ' '
      {
        out[j] := ' ';
        j := j + 1;
      }
      e := end;
      assert out[..e] == done + Spaces(e - i);
    }
  }

  /** One token: what is put out for it, and where the next one starts. */
  method MaskToken(l: Letters, out: array<char>, s: string, i: nat) returns (e: nat)
    requires InStep(out, s, i) && i < |s|
    modifies out
    ensures TokenDone(l, out, s, old(out[..i]), e)
  {
    if IsQuote(s[i]) {
      e := MaskString(l, out, s, i);
    } else if i + 1 < |s| && s[i] == '/' && s[i + 1] == '/' {
      e := MaskLineComment(l, out, s, i);
    } else if i + 1 < |s| && s[i] == '/' && s[i + 1] == '*' {
      e := MaskBlockComment(l, out, s, i);
    } else if s[i] == '/' {
      e := MaskSlash(l, out, s, i);
    } else {
      e := i + 1;
      assert out[..e] == out[..i] + [s[i]];
    }
  }

  /** The index loop puts out what the token-by-token definition says. */
  method StripForScanning(l: Letters, source: string) returns (masked: string)
    ensures masked == Mask(l, source, "")
  {
    var out := new char[|source|](k requires 0 <= k < |source| => source[k]);
    var i := 0;
    assert out[..0] == "";
    while i < |source|
      invariant InStep(out, source, i)
      invariant Mask(l, source, "") == Mask(l, source, out[..i])
    {
      i := MaskToken(l, out, source, i);
    }
    masked := out[..];
    assert out[..i] == masked;
  }

  // ---- what is kept ----

  /** A place holds its own character or a space; a line break goes only after a backslash. */
  predicate Kept(s: string, r: string, k: nat)
    requires k < |s| && k < |r|
  {
    && (r[k] == s[k] || r[k] == ' ')
    && (s[k] == '\n' && r[k] != '\n' ==> k > 0 && s[k - 1] == '\\')
  }

  /** Inside a regular expression a line break can only stand after a backslash. */
  lemma {:induction false} RegexBreaks(l: Letters, s: string, i: nat, inClass: bool, k: nat)
    requires i <= |s| && RegexClose(l, s, i, inClass).Some? && i <= k < RegexClose(l, s, i, inClass).value
    requires Plausible(l) && s[k] == '\n'
    ensures k > i && s[k - 1] == '\\'
    decreases |s| - i
  {
    if s[i] == '\\' {
      if k > i + 1 { RegexBreaks(l, s, i + 2, inClass, k); }
    } else if inClass {
      if k > i { RegexBreaks(l, s, i + 1, s[i] != ']', k); }
    } else if s[i] == '[' {
      if k > i { RegexBreaks(l, s, i + 1, true, k); }
    } else if s[i] != '/' {
      if k > i { RegexBreaks(l, s, i + 1, false, k); }
    }
  }

  /** The same for a token that starts at `i`. */
  predicate KeptAt(s: string, i: nat, c: string, j: nat)
    requires j < |c| && i + |c| <= |s|
  {
    && (c[j] == s[i + j] || c[j] == ' ')
    && (s[i + j] == '\n' && c[j] != '\n' ==> i + j > 0 && s[i + j - 1] == '\\')
  }

  lemma StringKeeps(s: string, i: nat, close: nat, j: nat)
    requires i < close < |s| && j <= close - i
    ensures KeptAt(s, i, [s[i]] + Blank(s[i + 1..close]) + [s[close]], j)
  {
  }

  lemma OpenStringKeeps(s: string, i: nat, j: nat)
    requires i < |s| && j < |s| - i
    ensures KeptAt(s, i, [s[i]] + Blank(s[i + 1..]), j)
  {
  }

  lemma BlankKeeps(s: string, i: nat, e: nat, j: nat)
    requires i <= e <= |s| && j < e - i
    ensures KeptAt(s, i, Blank(s[i..e]), j)
  {
  }

  lemma OpenCommentKeeps(s: string, i: nat, e: nat, j: nat)
    requires i <= e < |s| && j <= e - i
    ensures KeptAt(s, i, Blank(s[i..e]) + [s[e]], j)
  {
  }

  lemma RegexKeeps(l: Letters, s: string, i: nat, e: nat, j: nat)
    requires Plausible(l) && i < e <= |s| && s[i] == '/' && RegexClose(l, s, i + 1, false) == Some(e) && j < e - i
    ensures KeptAt(s, i, Spaces(e - i), j)
  {
    if s[i + j] == '\n' { RegexBreaks(l, s, i + 1, false, i + j); }
  }

  lemma ChunkKeeps(l: Letters, s: string, done: string, j: nat)
    requires Plausible(l) && |done| < |s| && j < |Chunk(l, s, done)|
    ensures KeptAt(s, |done|, Chunk(l, s, done), j)
  {
    var i := |done|;
    if IsQuote(s[i]) {
      var close := StringClose(s, i + 1, s[i]);
      if close < |s| { StringKeeps(s, i, close, j); } else { OpenStringKeeps(s, i, j); }
    } else if i + 1 < |s| && s[i] == '/' && s[i + 1] == '/' {
      BlankKeeps(s, i, LineEnd(s, i), j);
    } else if i + 1 < |s| && s[i] == '/' && s[i + 1] == '*' {
      var close := CommentClose(s, i);
      if Closes(s, close) { BlankKeeps(s, i, close + 2, j); } else { OpenCommentKeeps(s, i, close, j); }
    } else if s[i] == '/' && RegexEnd(l, s, done).Some? {
      RegexKeeps(l, s, i, RegexEnd(l, s, done).value, j);
    }
  }

  /** Masking keeps the length, and every place its character or a space: all offsets into the
      source stay good. No line break is lost that a backslash does not stand before. */
  lemma {:induction false} MaskKeeps(l: Letters, s: string, done: string, k: nat)
    requires Plausible(l) && |done| <= |s| && k < |s|
    requires k < |done| ==> Kept(s, done, k)
    ensures Kept(s, Mask(l, s, done), k)
    decreases |s| - |done|
  {
    if |done| < |s| {
      var more := done + Chunk(l, s, done);
      if |done| <= k < |more| {
        ChunkKeeps(l, s, done, k - |done|);
        assert more[k] == Chunk(l, s, done)[k - |done|];
      }
      MaskKeeps(l, s, more, k);
    }
  }

  /** The token at the end of `done` is a regular expression. */
  predicate AtRegex(l: Letters, s: string, done: string)
    requires |done| < |s|
  {
    var i := |done|;
    s[i] == '/' && !(i + 1 < |s| && (s[i + 1] == '/' || s[i + 1] == '*')) && RegexEnd(l, s, done).Some?
  }

  /** `k` lies in a regular expression. */
  predicate InRegex(l: Letters, s: string, done: string, k: nat)
    requires |done| <= |s|
    decreases |s| - |done|
  {
    if |done| == |s| then false
    else
      var more := done + Chunk(l, s, done);
      if k < |more| then AtRegex(l, s, done) else InRegex(l, s, more, k)
  }

  /** Outside regular expressions every line break is put out. */
  lemma BreakPutOut(l: Letters, s: string, done: string, j: nat)
    requires |done| < |s| && j < |Chunk(l, s, done)| && s[|done| + j] == '\n'
    ensures Chunk(l, s, done)[j] == '\n' <==> !AtRegex(l, s, done)
  {
    var i := |done|;
    if IsQuote(s[i]) {
      var close := StringClose(s, i + 1, s[i]);
      if close < |s| {
        if j < close - i { assert s[i + 1..close][j - 1] == '\n'; }
      } else {
        assert s[i + 1..][j - 1] == '\n';
      }
    } else if i + 1 < |s| && s[i] == '/' && s[i + 1] == '/' {
    } else if i + 1 < |s| && s[i] == '/' && s[i + 1] == '*' {
      var close := CommentClose(s, i);
      if Closes(s, close) {
        assert s[i..close + 2][j] == '\n';
      } else if j < close - i {
        assert s[i..close][j] == '\n';
      }
    }
  }

  /** A line break is lost exactly when it stands in a regular expression. */
  lemma {:induction false} BreakLostIff(l: Letters, s: string, done: string, k: nat)
    requires |done| <= k < |s| && s[k] == '\n'
    ensures Mask(l, s, done)[k] == '\n' <==> !InRegex(l, s, done, k)
    decreases |s| - |done|
  {
    var c := Chunk(l, s, done);
    var more := done + c;
    if k < |more| {
      BreakPutOut(l, s, done, k - |done|);
      assert Mask(l, s, done)[k] == more[k] == c[k - |done|];
    } else {
      BreakLostIff(l, s, more, k);
    }
  }

  /** And that does happen. */
  lemma BreakIsLost(l: Letters)
    ensures Mask(l, ['=', '/', '\\', '\n', '/'], "")[3] != '\n'
  {
    var s := ['=', '/', '\\', '\n', '/'];
    assert Chunk(l, s, "") == ['='];
    assert "" + ['='] == ['='];
    assert TrimEnd(['=']) == 1 && Expecting(l, ['=']);
    assert RegexClose(l, s, 4, false) == Some(5) && RegexClose(l, s, 2, false) == Some(5);
    assert AtRegex(l, s, ['=']);
    assert InRegex(l, s, "", 3);
    BreakLostIff(l, s, "", 3);
  }

  // ---- masking what has been masked ----

  /** A slash that the mask leaves as it is stands at `i`. */
  predicate PlainSlash(l: Letters, s: string, done: string, i: nat)
    requires |done| <= |s|
    decreases |s| - |done|
  {
    if |done| == |s| then false
    else
      var c := Chunk(l, s, done);
      (i == |done| && c == ['/']) || PlainSlash(l, s, done + c, i)
  }

  /** In the masked text a regular expression opens at `i` and closes. */
  predicate OpensIn(l: Letters, r: string, i: nat) {
    i < |r| && Expecting(l, r[..i]) && RegexClose(l, r, i + 1, false).Some?
  }

  predicate AllBlank(t: string) { forall k :: 0 <= k < |t| ==> t[k] == ' ' || t[k] == '\n' }

  lemma BlankIsBlank(t: string)
    ensures AllBlank(Blank(t))
  {
  }

  /** A string of blanks closes where it did. */
  lemma {:induction false} BlankCloses(r: string, i: nat, blanks: string, quote: char)
    requires i + |blanks| <= |r| && r[i..i + |blanks|] == blanks && AllBlank(blanks)
    requires IsQuote(quote) && (i + |blanks| < |r| ==> r[i + |blanks|] == quote)
    ensures StringClose(r, i, quote) == i + |blanks|
    decreases |blanks|
  {
    if blanks != "" {
      assert r[i] == r[i..i + |blanks|][0] == blanks[0];
      assert r[i + 1..i + |blanks|] == blanks[1..];
      BlankCloses(r, i + 1, blanks[1..], quote);
    }
  }

  lemma BlankAgain(t: string)
    requires AllBlank(t)
    ensures Blank(t) == t
  {
  }

  /** The masked text holds the token's mask where the token stood. */
  ghost predicate Holds(r: string, done: string, c: string) {
    done + c <= r
  }

  lemma HeldAt(r: string, done: string, c: string)
    requires Holds(r, done, c)
    ensures r[..|done|] == done && r[|done|..|done| + |c|] == c && r[..|done| + |c|] == done + c
  {
  }

  /** A string masked: the quote, blanks, and the quote again unless the text ends. */
  lemma StringAgain(l: Letters, s: string, r: string, done: string)
    requires |done| < |s| == |r| && IsQuote(s[|done|]) && Holds(r, done, Chunk(l, s, done))
    ensures Chunk(l, r, done) == Chunk(l, s, done)
  {
    var i, q := |done|, s[|done|];
    var close := StringClose(s, i + 1, q);
    var blanks := Blank(s[i + 1..close]);
    BlankIsBlank(s[i + 1..close]);
    if close < |s| {
      ClosedAgain(l, r, done, q, blanks);
    } else {
      assert s[i + 1..close] == s[i + 1..];
      OpenAgain(l, r, done, q, blanks);
    }
  }

  lemma ClosedAgain(l: Letters, r: string, done: string, q: char, blanks: string)
    requires IsQuote(q) && AllBlank(blanks) && Holds(r, done, [q] + blanks + [q])
    ensures Chunk(l, r, done) == [q] + blanks + [q]
  {
    var i, c := |done|, [q] + blanks + [q];
    HeldAt(r, done, c);
    assert r[i] == r[i..i + |c|][0] == q && r[i + 1 + |blanks|] == r[i..i + |c|][|blanks| + 1] == q;
    assert r[i + 1..i + 1 + |blanks|] == r[i..i + |c|][1..1 + |blanks|] == blanks;
    BlankCloses(r, i + 1, blanks, q);
    BlankAgain(blanks);
  }

  lemma OpenAgain(l: Letters, r: string, done: string, q: char, blanks: string)
    requires IsQuote(q) && AllBlank(blanks) && r == done + ([q] + blanks)
    ensures Chunk(l, r, done) == [q] + blanks
  {
    var i := |done|;
    assert r[i] == q && r[i + 1..] == r[i + 1..i + 1 + |blanks|] == blanks;
    BlankCloses(r, i + 1, blanks, q);
    BlankAgain(blanks);
  }

  /** Blanks are put out as they are, one by one. */
  lemma {:induction false} BlanksAgain(l: Letters, r: string, done: string, c: string)
    requires Holds(r, done, c) && AllBlank(c)
    ensures Mask(l, r, done) == Mask(l, r, done + c)
    decreases |c|
  {
    if c == "" {
      assert done + c == done;
    } else {
      var first, more := [c[0]], c[1..];
      assert c == first + more;
      Text.Regroup(done, first, more);
      assert Holds(r, done, first);
      PlainAgain(l, r, done, c[0]);
      BlanksAgain(l, r, done + first, more);
    }
  }

  lemma OpenCommentAgain(l: Letters, s: string, r: string, done: string)
    requires |done| + 1 < |s| == |r| && s[|done|] == '/' && s[|done| + 1] == '*'
    requires !Closes(s, CommentClose(s, |done|)) && Holds(r, done, Chunk(l, s, done))
    ensures Mask(l, r, done) == Mask(l, r, done + Chunk(l, s, done))
  {
    var i, close := |done|, CommentClose(s, |done|);
    var blanks := Blank(s[i..close]);
    assert done + Chunk(l, s, done) == (done + blanks) + [s[close]];
    HeldAt(r, done, Chunk(l, s, done));
    assert done + Chunk(l, s, done) == r;
    assert Holds(r, done, blanks);
    BlankIsBlank(s[i..close]);
    BlanksAgain(l, r, done, blanks);
    assert r[..|r| - 1] == done + blanks;
    LastStays(l, r);
  }

  /** The last character of a text is put out as it is. */
  lemma LastStays(l: Letters, r: string)
    requires r != ""
    ensures Mask(l, r, r[..|r| - 1]) == Mask(l, r, r)
  {
    var n := |r| - 1;
    assert r[n + 1..] == "";
    assert Chunk(l, r, r[..n]) == [r[n]];
    assert r[..n] + [r[n]] == r;
  }

  /** One token of the first pass in the second: it stays, but for a slash that now opens a
      regular expression. */
  lemma TokenAgain(l: Letters, s: string, r: string, done: string)
    requires |done| < |s| == |r| && Holds(r, done, Chunk(l, s, done))
    requires Chunk(l, s, done) == ['/'] ==> !OpensIn(l, r, |done|) && NextIsNoComment(r, |done|)
    ensures Mask(l, r, done) == Mask(l, r, done + Chunk(l, s, done))
  {
    var i, c := |done|, Chunk(l, s, done);
    if IsQuote(s[i]) {
      StringAgain(l, s, r, done);
    } else if i + 1 < |s| && s[i] == '/' && s[i + 1] == '*' && !Closes(s, CommentClose(s, i)) {
      OpenCommentAgain(l, s, r, done);
    } else if i + 1 < |s| && s[i] == '/' && (s[i + 1] == '/' || s[i + 1] == '*') {
      BlanksAgain(l, r, done, c);
    } else if s[i] == '/' && RegexEnd(l, s, done).Some? {
      BlanksAgain(l, r, done, c);
    } else {
      PlainAgain(l, r, done, s[i]);
    }
  }

  lemma PlainAgain(l: Letters, r: string, done: string, c: char)
    requires Holds(r, done, [c]) && !IsQuote(c)
    requires c == '/' ==> !OpensIn(l, r, |done|) && NextIsNoComment(r, |done|)
    ensures Mask(l, r, done) == Mask(l, r, done + [c])
  {
    HeldAt(r, done, [c]);
    assert r[|done|] == r[|done|..|done| + 1][0] == c;
    assert Chunk(l, r, done) == [c];
  }

  predicate NextIsNoComment(r: string, i: nat) { i + 1 < |r| ==> r[i + 1] != '/' && r[i + 1] != '*' }

  /** What follows a slash left as it is starts no comment with it, in the masked text either. */
  lemma NextStays(l: Letters, s: string, done: string)
    requires |done| < |s| && Chunk(l, s, done) == ['/']
    ensures NextIsNoComment(Mask(l, s, done), |done|)
  {
    var i := |done|;
    FirstOfChunk(l, s, done);
    var more := done + ['/'];
    if i + 1 < |s| {
      var d := Chunk(l, s, more);
      FirstOfChunk(l, s, more);
      assert Mask(l, s, more)[i + 1] == (more + d)[i + 1] == d[0];
    }
  }

  lemma FirstOfChunk(l: Letters, s: string, done: string)
    requires |done| < |s|
    ensures Chunk(l, s, done)[0] == s[|done|] || Chunk(l, s, done)[0] == ' '
  {
    var i := |done|;
    if i + 1 < |s| && s[i] == '/' && s[i + 1] == '/' {
      assert s[i..LineEnd(s, i)][0] == s[i];
    } else if i + 1 < |s| && s[i] == '/' && s[i + 1] == '*' {
      var close := CommentClose(s, i);
      assert Closes(s, close) ==> s[i..close + 2][0] == s[i];
      assert close > i ==> s[i..close][0] == s[i];
    }
  }

  /** The text masked from `done` on is a fixed point exactly when no slash left as it is opens
      a regular expression in it. */
  lemma {:induction false} MaskedAgainIff(l: Letters, s: string, done: string)
    requires |done| <= |s|
    ensures var r := Mask(l, s, done);
            Mask(l, r, done) == r <==> forall i :: |done| <= i < |s| && PlainSlash(l, s, done, i) ==> !OpensIn(l, r, i)
    decreases |s| - |done|
  {
    if |done| < |s| {
      var r, c := Mask(l, s, done), Chunk(l, s, done);
      var more := done + c;
      assert r == Mask(l, s, more);
      MaskedAgainIff(l, s, more);
      if c == ['/'] { NextStays(l, s, done); }
      if c == ['/'] && OpensIn(l, r, |done|) {
        SlashGoes(l, r, done);
        assert PlainSlash(l, s, done, |done|);
      } else {
        TokenAgain(l, s, r, done);
        LaterSlashes(l, s, done);
      }
    }
  }

  lemma SlashGoes(l: Letters, r: string, done: string)
    requires |done| < |r| && done <= r && r[|done|] == '/' && OpensIn(l, r, |done|) && NextIsNoComment(r, |done|)
    ensures Mask(l, r, done) != r
  {
    var i := |done|;
    assert r[..i] == done;
    var c := Chunk(l, r, done);
    assert c[0] == ' ';
    assert (done + c)[i] == ' ';
    assert Mask(l, r, done) == Mask(l, r, done + c);
    assert Mask(l, r, done + c)[i] == (done + c)[i];
  }

  lemma {:induction false} SlashesBehind(l: Letters, s: string, done: string, i: nat)
    requires |done| <= |s| && PlainSlash(l, s, done, i)
    ensures |done| <= i < |s|
    decreases |s| - |done|
  {
    var c := Chunk(l, s, done);
    if !(i == |done| && c == ['/']) { SlashesBehind(l, s, done + c, i); }
  }

  lemma LaterSlashes(l: Letters, s: string, done: string)
    requires |done| < |s|
    ensures forall i: nat :: PlainSlash(l, s, done + Chunk(l, s, done), i) ==> |done| + |Chunk(l, s, done)| <= i < |s|
  {
    forall i: nat | PlainSlash(l, s, done + Chunk(l, s, done), i)
      ensures |done| + |Chunk(l, s, done)| <= i < |s|
    {
      SlashesBehind(l, s, done + Chunk(l, s, done), i);
    }
  }

  /** Masking again changes nothing exactly when no slash that the mask left alone, as a division,
      opens a regular expression in the masked text: none has an expression expected before it
      and a closing slash after it. */
  lemma MaskingTwiceIff(l: Letters, s: string)
    ensures var r := Mask(l, s, "");
            Mask(l, r, "") == r <==> forall i :: 0 <= i < |s| && PlainSlash(l, s, "", i) ==> !OpensIn(l, r, i)
  {
    MaskedAgainIff(l, s, "");
  }

  predicate Dull(l: Letters) {
    forall c :: c in {'/', '=', '"', '[', ' '} ==> !l.alnum(c) && !l.alpha(c)
  }

  const ONCE: string := ['=', '/', '"', '[', '"', '/']

  const TWICE: string := ['=', '/', '"', ' ', '"', '/']

  lemma NoRegexInOnce(l: Letters)
    requires Dull(l)
    ensures RegexClose(l, ONCE, 2, false) == None
  {
  }

  lemma StringInOnce(l: Letters)
    requires Dull(l)
    ensures Chunk(l, ONCE, ['=', '/']) == ['"', ' ', '"']
  {
    assert StringClose(ONCE, 4, '"') == 4;
    assert StringClose(ONCE, 3, '"') == 4;
    assert ONCE[3..4] == ['['];
    assert Blank(['[']) == [' '];
  }

  lemma FirstPass(l: Letters)
    requires Dull(l)
    ensures Mask(l, ONCE, "") == TWICE
  {
    assert Chunk(l, ONCE, "") == ['='];
    assert "" + ['='] == ['='];
    NoRegexInOnce(l);
    assert Chunk(l, ONCE, ['=']) == ['/'];
    assert ['='] + ['/'] == ['=', '/'];
    StringInOnce(l);
    assert ['=', '/'] + ['"', ' ', '"'] == ['=', '/', '"', ' ', '"'];
    assert ['=', '/', '"', ' ', '"'] + ['/'] == TWICE;
  }

  lemma RegexChunkInTwice(l: Letters)
    requires Dull(l)
    ensures Chunk(l, TWICE, ['=']) == Spaces(5)
  {
  }

  lemma SecondPass(l: Letters)
    requires Dull(l)
    ensures Mask(l, TWICE, "") != TWICE
  {
    assert Chunk(l, TWICE, "") == ['='];
    assert "" + ['='] == ['='];
    RegexChunkInTwice(l);
    assert (['='] + Spaces(5))[1] == ' ';
  }

  /** Masking what has been masked can blank more: a slash that read as a division, because a
      class inside the string after it hid where it would close, then reads as a regular expression. */
  lemma MaskingTwiceDiffers(l: Letters)
    requires Dull(l)
    ensures Mask(l, Mask(l, ONCE, ""), "") != Mask(l, ONCE, "")
  {
    FirstPass(l);
    SecondPass(l);
  }

  // ---- matching parentheses ----

  /** How many parentheses are open after the places from `lo` up to `hi`. */
  function Depth(masked: string, lo: nat, hi: nat): int
    requires lo <= hi <= |masked|
    decreases hi
  {
    if lo == hi then 0
    else if masked[hi - 1] == '(' then Depth(masked, lo, hi - 1) + 1
    else if masked[hi - 1] == ')' then Depth(masked, lo, hi - 1) - 1
    else Depth(masked, lo, hi - 1)
  }

  /** A closing parenthesis at `k` brings the depth back to zero. */
  predicate ClosesAt(masked: string, start: nat, k: nat)
    requires start <= k < |masked|
  {
    masked[k] == ')' && Depth(masked, start, k + 1) == 0
  }

  /** `_match_paren`: just past the first place where the depth is back at zero. */
  method MatchParen(masked: string, start: nat) returns (end: int)
    requires start <= |masked|
    ensures end == -1 <==> forall k :: start <= k < |masked| ==> !ClosesAt(masked, start, k)
    ensures end != -1 ==> start < end <= |masked| && ClosesAt(masked, start, end - 1)
                          && forall k :: start <= k < end - 1 ==> !ClosesAt(masked, start, k)
  {
    var depth, i := 0, start;
    while i < |masked|
      invariant start <= i <= |masked| && depth == Depth(masked, start, i)
      invariant forall k :: start <= k < i ==> !ClosesAt(masked, start, k)
    {
      if masked[i] == '(' {
        depth := depth + 1;
      } else if masked[i] == ')' {
        depth := depth - 1;
        if depth == 0 {
          assert ClosesAt(masked, start, i);
          return i + 1;
        }
      }
      i := i + 1;
    }
    return -1;
  }

  /** Started on an opening parenthesis, everything before the match is inside it. */
  lemma {:induction false} InsideUntilMatched(masked: string, start: nat, k: nat)
    requires start < k <= |masked| && masked[start] == '('
    requires forall j :: start <= j < k ==> !ClosesAt(masked, start, j)
    ensures Depth(masked, start, k) >= 1
    decreases k
  {
    if k > start + 1 {
      InsideUntilMatched(masked, start, k - 1);
      assert !ClosesAt(masked, start, k - 1);
    }
  }
}
