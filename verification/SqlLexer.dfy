/** The hand-written SQL lexer of the migration runner: comments, quotes, E-strings and dollar quotes. */
module SqlLexer {
  import opened Wrappers

  datatype Kind = Code | Str | Ident | Dollar

  /** A run of text the lexer delimited. `delimiter` is the dollar-quote opener (and closer); empty for every other kind. */
  datatype Segment = Segment(kind: Kind, text: string, delimiter: string, closed: bool)

  datatype Problem = UnterminatedComment | UnterminatedQuote | AmbiguousDollarQuote | UnterminatedDollarQuote

  // ---------------------------------------------------------------- characters

  /** Every character above ASCII counts as an identifier character, as in the source's \u0080-\uffff. */
  predicate IsTagStart(c: char) { 'a' <= c <= 'z' || 'A' <= c <= 'Z' || c == '_' || c as int >= 0x80 }

  predicate IsTagChar(c: char) { IsTagStart(c) || '0' <= c <= '9' }

  predicate IsIdentChar(c: char) { IsTagChar(c) || c == '$' }

  /** A letter, a digit, an underscore, a dollar sign or any character above ASCII. */
  predicate ContinuesName(c: char) {
    'a' <= c <= 'z' || 'A' <= c <= 'Z' || '0' <= c <= '9' || c == '_' || c == '$' || c as int >= 128
  }

  predicate IsNewline(c: char) { c == '\n' || c == '\r' }

  /** The text before a quote makes it an E'...' literal: an e/E that is not the tail of an identifier. */
  predicate EndsWithEscapePrefix(before: string) {
    && |before| >= 1
    && (before[|before| - 1] == 'e' || before[|before| - 1] == 'E')
    && !(|before| >= 2 && IsIdentChar(before[|before| - 2]))
  }

  predicate EndsWithIdentChar(before: string) { |before| >= 1 && IsIdentChar(before[|before| - 1]) }

  /** The two characters `a`, `b` stand at `j`. */
  predicate At(s: string, j: nat, a: char, b: char) { j + 1 < |s| && s[j] == a && s[j + 1] == b }

  // ---------------------------------------------------------------- delimiters

  /** Where a line comment read up to `j` ends: at the next CR or LF, which is not part of it. */
  function LineEnd(s: string, j: nat): (n: nat)
    requires j <= |s|
    ensures j <= n <= |s|
    ensures n < |s| ==> IsNewline(s[n])
    decreases |s| - j
  {
    if j == |s| || IsNewline(s[j]) then j else LineEnd(s, j + 1)
  }

  /** Where a block comment read up to `j` at nesting `depth` ends, or None when it never closes. */
  function BlockEnd(s: string, j: nat, depth: nat): (r: Option<nat>)
    requires j <= |s|
    ensures r.Some? ==> j <= r.value <= |s|
    decreases |s| - j
  {
    if depth == 0 then Some(j)
    else if j == |s| then None
    else if At(s, j, '/', '*') then BlockEnd(s, j + 2, depth + 1)
    else if At(s, j, '*', '/') then BlockEnd(s, j + 2, depth - 1)
    else BlockEnd(s, j + 1, depth)
  }

  /** Where a literal read up to `j` ends (its closing quote included), or None when it never closes. */
  function QuoteEnd(s: string, j: nat, quote: char, escaped: bool): (r: Option<nat>)
    requires j <= |s|
    ensures r.Some? ==> j < r.value <= |s| && s[r.value - 1] == quote
    decreases |s| - j
  {
    if j == |s| then None
    else if escaped && s[j] == '\\' then if j + 2 <= |s| then QuoteEnd(s, j + 2, quote, escaped) else None
    else if s[j] == quote then if At(s, j, quote, quote) then QuoteEnd(s, j + 2, quote, escaped) else Some(j + 1)
    else QuoteEnd(s, j + 1, quote, escaped)
  }

  /** Just past the '$' that ends a tag, when only tag characters stand between `j` and it. */
  function TagEnd(s: string, j: nat): (r: Option<nat>)
    requires j <= |s|
    ensures r.Some? ==> j < r.value <= |s|
    decreases |s| - j
  {
    if j == |s| then None
    else if s[j] == '$' then Some(j + 1)
    else if IsTagChar(s[j]) then TagEnd(s, j + 1)
    else None
  }

  /** End of the dollar-quote opener at `j`: '$', an optional tag that does not start with a digit, '$'. */
  function DollarOpenEnd(s: string, j: nat): (r: Option<nat>)
    requires j < |s|
    ensures r.Some? ==> j + 2 <= r.value <= |s| && s[j] == '$'
  {
    if j + 1 < |s| && s[j] == '$' && (s[j + 1] == '$' || IsTagStart(s[j + 1])) then TagEnd(s, j + 1) else None
  }

  predicate OccursAt(s: string, pattern: string, k: nat) {
    k + |pattern| <= |s| && forall m :: 0 <= m < |pattern| ==> s[k + m] == pattern[m]
  }

  function IndexOf(s: string, pattern: string, from: nat): (r: Option<nat>)
    requires from <= |s|
    ensures r.Some? ==> from <= r.value && OccursAt(s, pattern, r.value) && forall k: nat :: from <= k < r.value ==> !OccursAt(s, pattern, k)
    ensures r.None? ==> forall k: nat :: from <= k ==> !OccursAt(s, pattern, k)
    decreases |s| - from
  {
    if OccursAt(s, pattern, from) then Some(from)
    else if from == |s| then None
    else IndexOf(s, pattern, from + 1)
  }

  lemma {:induction false} LineEndIs(s: string, j: nat, n: nat)
    requires j <= n <= |s| && (forall k :: j <= k < n ==> s[k] != '\n' && s[k] != '\r') && (n == |s| || s[n] == '\n' || s[n] == '\r')
    ensures LineEnd(s, j) == n
    decreases n - j
  {
    if j < n {
      LineEndIs(s, j + 1, n);
    }
  }

  // ---------------------------------------------------------------- the lexer as a function

  /** One lexical step. A closed comment leaves one blank; an unclosed one stays visible without its opener. */
  datatype Piece =
    | Comment(source: string)
    | Unclosed(source: string)
    | Char(c: char)
    | Literal(segment: Segment, ambiguous: bool)

  function Source(p: Piece): string {
    match p
    case Comment(s) => s
    case Unclosed(s) => s
    case Char(c) => [c]
    case Literal(g, _) => g.text
  }

  function Visible(p: Piece): string {
    match p
    case Comment(_) => " "
    case Unclosed(s) => if |s| < 2 then " " else " " + s[2..]
    case Char(c) => [c]
    case Literal(g, _) => g.text
  }

  function First(before: string, s: string): (p: Piece)
    requires s != ""
    ensures Source(p) != "" && Source(p) <= s
  {
    if At(s, 0, '-', '-') then Comment(s[..LineEnd(s, 2)])
    else if At(s, 0, '/', '*') then
      var n := BlockEnd(s, 2, 1);
      if n.None? then Unclosed(s) else Comment(s[..n.value])
    else if s[0] == '\'' || s[0] == '"' then
      var n := QuoteEnd(s, 1, s[0], s[0] == '\'' && EndsWithEscapePrefix(before));
      var kind := if s[0] == '\'' then Str else Ident;
      Literal(if n.None? then Segment(kind, s, "", false) else Segment(kind, s[..n.value], "", true), false)
    else if DollarOpenEnd(s, 0).Some? then
      var d := DollarOpenEnd(s, 0).value;
      var n := IndexOf(s, s[..d], d);
      Literal(if n.None? then Segment(Dollar, s, s[..d], false) else Segment(Dollar, s[..n.value + d], s[..d], true),
              EndsWithIdentChar(before))
    else Char(s[0])
  }

  function Pieces(before: string, s: string): seq<Piece>
    decreases |s|
  {
    if s == "" then [] else
      var p := First(before, s);
      [p] + Pieces(before + Source(p), s[|Source(p)|..])
  }

  function ProblemsOf(p: Piece): set<Problem> {
    match p
    case Unclosed(_) => {UnterminatedComment}
    case Literal(g, ambiguous) =>
      (if ambiguous then {AmbiguousDollarQuote} else {}) +
      (if g.closed then {} else if g.kind == Dollar then {UnterminatedDollarQuote} else {UnterminatedQuote})
    case _ => {}
  }

  function Problems(ps: seq<Piece>): set<Problem> {
    if ps == [] then {} else ProblemsOf(ps[0]) + Problems(ps[1..])
  }

  function Flush(code: string): seq<Segment> { if code == "" then [] else [Segment(Code, code, "", true)] }

  /** The segments the pieces make up when `code` is the code text still being gathered. */
  function Segments(ps: seq<Piece>, code: string): seq<Segment>
    decreases |ps|
  {
    if ps == [] then Flush(code)
    else if ps[0].Literal? then Flush(code) + [ps[0].segment] + Segments(ps[1..], "")
    else Segments(ps[1..], code + Visible(ps[0]))
  }

  function Sources(ps: seq<Piece>): string { if ps == [] then "" else Source(ps[0]) + Sources(ps[1..]) }

  function VisibleText(ps: seq<Piece>): string { if ps == [] then "" else Visible(ps[0]) + VisibleText(ps[1..]) }

  function Joined(gs: seq<Segment>): string { if gs == [] then "" else gs[0].text + Joined(gs[1..]) }

  // ---------------------------------------------------------------- the tokens, by their characters

  /** A comment after two dashes runs up to the first line feed or carriage return, which stays code, or to the end. */
  lemma LineCommentExactly(before: string, s: string, n: nat)
    requires 2 <= n <= |s| && s[0] == '-' && s[1] == '-'
    requires (forall k :: 2 <= k < n ==> s[k] != '\n' && s[k] != '\r') && (n == |s| || s[n] == '\n' || s[n] == '\r')
    ensures First(before, s) == Comment(s[..n])
  {
    LineEndIs(s, 2, n);
  }

  /** A dollar quote's opener of `d` characters: two dollar signs and between them a tag, which is empty or a name that does not start with a digit. */
  predicate IsOpener(s: string, d: int) {
    && 2 <= d <= |s| && s[0] == '$' && s[d - 1] == '$'
    && (forall k :: 1 <= k < d - 1 ==> ContinuesName(s[k]) && s[k] != '$')
    && (d > 2 ==> !('0' <= s[1] <= '9'))
  }

  lemma {:induction false} TagEndIs(s: string, j: nat, d: nat)
    requires j < d <= |s| && s[d - 1] == '$' && forall k :: j <= k < d - 1 ==> ContinuesName(s[k]) && s[k] != '$'
    ensures TagEnd(s, j) == Some(d)
    decreases d - j
  {
    if j < d - 1 {
      TagEndIs(s, j + 1, d);
    }
  }

  lemma {:induction false} TagEndMeans(s: string, j: nat)
    requires j <= |s| && TagEnd(s, j).Some?
    ensures var d := TagEnd(s, j).value; s[d - 1] == '$' && forall k :: j <= k < d - 1 ==> ContinuesName(s[k]) && s[k] != '$'
    decreases |s| - j
  {
    if s[j] != '$' {
      TagEndMeans(s, j + 1);
    }
  }

  lemma OpenerExactly(s: string, d: nat)
    requires s != ""
    ensures DollarOpenEnd(s, 0) == Some(d) <==> IsOpener(s, d)
  {
    if DollarOpenEnd(s, 0) == Some(d) {
      TagEndMeans(s, 1);
    }
    if IsOpener(s, d) {
      TagEndIs(s, 1, d);
    }
  }

  /** The first `d` characters stand again at `n`, past themselves. */
  predicate StandsAgain(s: string, d: nat, n: int) { d <= n && n + d <= |s| && s[n..n + d] == s[..d] }

  lemma FirstAgain(s: string, d: nat, end: Option<nat>)
    requires d <= |s| && end == IndexOf(s, s[..d], d)
    ensures end.Some? ==> StandsAgain(s, d, end.value) && forall m :: m < end.value ==> !StandsAgain(s, d, m)
    ensures end.None? ==> forall n :: !StandsAgain(s, d, n)
  {
    forall n | d <= n && n + d <= |s| ensures OccursAt(s, s[..d], n) <==> StandsAgain(s, d, n) { OccursIsSlice(s, s[..d], n); }
  }

  /** A dollar quote ends where its opener first stands again, and is unclosed when it never does; one right after a name is ambiguous. */
  lemma DollarQuoteExactly(before: string, s: string, d: nat, n: nat)
    requires s != "" && IsOpener(s, d)
    ensures First(before, s).Literal? && First(before, s).ambiguous == (before != "" && ContinuesName(before[|before| - 1]))
    ensures StandsAgain(s, d, n) && (forall m :: m < n ==> !StandsAgain(s, d, m)) ==>
              First(before, s).segment == Segment(Dollar, s[..n + d], s[..d], true)
    ensures (forall m :: !StandsAgain(s, d, m)) ==> First(before, s).segment == Segment(Dollar, s, s[..d], false)
  {
    OpenerExactly(s, d);
    DollarFirst(before, s, d, s[..d]);
    var end := IndexOf(s, s[..d], d);
    FirstAgain(s, d, end);
    if StandsAgain(s, d, n) && forall m :: m < n ==> !StandsAgain(s, d, m) {
      assert end == Some(n);
    }
  }

  lemma OccursIsSlice(s: string, pattern: string, n: nat)
    requires n + |pattern| <= |s|
    ensures OccursAt(s, pattern, n) <==> s[n..n + |pattern|] == pattern
  {
    if s[n..n + |pattern|] == pattern {
      forall m | 0 <= m < |pattern| ensures s[n + m] == pattern[m] { assert s[n..n + |pattern|][m] == s[n + m]; }
    }
  }

  /** A character stands alone in code exactly when it starts no comment, no quote and no dollar quote. */
  lemma CodeCharExactly(before: string, s: string)
    requires s != ""
    ensures First(before, s) == Char(s[0]) <==>
            && s[0] != '\'' && s[0] != '"'
            && !(|s| > 1 && s[0] == '-' && s[1] == '-') && !(|s| > 1 && s[0] == '/' && s[1] == '*')
            && forall d :: !IsOpener(s, d)
  {
    if DollarOpenEnd(s, 0).Some? {
      OpenerExactly(s, DollarOpenEnd(s, 0).value);
    }
    forall d | IsOpener(s, d) ensures DollarOpenEnd(s, 0) == Some(d) { OpenerExactly(s, d); }
  }

  predicate HasProblem(p: Piece, problem: Problem) {
    match problem
    case UnterminatedComment => p.Unclosed?
    case UnterminatedQuote => p.Literal? && !p.segment.closed && p.segment.kind != Dollar
    case UnterminatedDollarQuote => p.Literal? && !p.segment.closed && p.segment.kind == Dollar
    case AmbiguousDollarQuote => p.Literal? && p.ambiguous
  }

  lemma PieceProblems(p: Piece, problem: Problem)
    ensures problem in ProblemsOf(p) <==> HasProblem(p, problem)
  {
  }

  /** A problem is reported exactly when a piece has it. */
  lemma {:induction false} ProblemsExactly(ps: seq<Piece>, problem: Problem)
    ensures problem in Problems(ps) <==> exists p :: p in ps && HasProblem(p, problem)
  {
    if ps != [] {
      ProblemsExactly(ps[1..], problem);
      PieceProblems(ps[0], problem);
      assert forall p :: p in ps <==> p == ps[0] || p in ps[1..];
    }
  }

  // ---------------------------------------------------------------- lossless

  lemma TileStep(p: Piece, rest: seq<Piece>, s: string)
    requires Source(p) <= s && Sources(rest) == s[|Source(p)|..]
    ensures Sources([p] + rest) == s
  {
    assert ([p] + rest)[1..] == rest;
  }

  /** Nothing is lost: the pieces, comments included, tile the input in order. */
  lemma {:induction false} PiecesTileInput(before: string, s: string)
    ensures Sources(Pieces(before, s)) == s
    decreases |s|
  {
    if s != "" {
      var p := First(before, s);
      PiecesTileInput(before + Source(p), s[|Source(p)|..]);
      TileStep(p, Pieces(before + Source(p), s[|Source(p)|..]), s);
    }
  }

  lemma Regroup<T>(a: seq<T>, b: seq<T>, c: seq<T>)
    ensures a + b + c == a + (b + c)
  {
  }

  lemma EmptyFirst(t: string)
    ensures "" + t == t
  {
  }

  lemma JoinedCons(g: Segment, rest: seq<Segment>)
    ensures Joined([g] + rest) == g.text + Joined(rest)
  {
    assert ([g] + rest)[1..] == rest;
  }

  lemma JoinedAppendStep(g: Segment, rest: seq<Segment>, b: seq<Segment>)
    requires Joined(rest + b) == Joined(rest) + Joined(b)
    ensures Joined([g] + rest + b) == Joined([g] + rest) + Joined(b)
  {
    Regroup([g], rest, b);
    JoinedCons(g, rest + b);
    JoinedCons(g, rest);
    Regroup(g.text, Joined(rest), Joined(b));
  }

  lemma {:induction false} JoinedAppend(a: seq<Segment>, b: seq<Segment>)
    ensures Joined(a + b) == Joined(a) + Joined(b)
  {
    if a == [] {
      assert a + b == b && Joined(a) == "";
    } else {
      JoinedAppend(a[1..], b);
      JoinedAppendStep(a[0], a[1..], b);
      assert [a[0]] + a[1..] == a;
    }
  }

  lemma JoinedFlush(code: string, g: Segment, rest: seq<Segment>)
    ensures Joined(Flush(code) + [g] + rest) == code + (g.text + Joined(rest))
  {
    JoinedCons(g, rest);
    Regroup(Flush(code), [g], rest);
    if code == "" {
      assert Flush(code) + ([g] + rest) == [g] + rest;
    } else {
      JoinedCons(Segment(Code, code, "", true), [g] + rest);
    }
  }

  lemma JoinedRest(code: string)
    ensures Joined(Flush(code)) == code
  {
    if code != "" {
      assert Flush(code) == [Segment(Code, code, "", true)] + [];
      JoinedCons(Segment(Code, code, "", true), []);
    }
  }

  /** The segments hold exactly the visible text: every closed comment became one blank, nothing else changed. */
  lemma {:induction false} SegmentsHoldVisibleText(ps: seq<Piece>, code: string)
    ensures Joined(Segments(ps, code)) == code + VisibleText(ps)
    decreases |ps|
  {
    if ps == [] {
      JoinedRest(code);
    } else if ps[0].Literal? {
      SegmentsHoldVisibleText(ps[1..], "");
      JoinedFlush(code, ps[0].segment, Segments(ps[1..], ""));
      EmptyFirst(VisibleText(ps[1..]));
    } else {
      SegmentsHoldVisibleText(ps[1..], code + Visible(ps[0]));
      Regroup(code, Visible(ps[0]), VisibleText(ps[1..]));
    }
  }

  lemma UnclosedFirst(before: string, s: string)
    requires s != "" && First(before, s).Unclosed?
    ensures |s| >= 2 && s[0] == '/' && s[1] == '*' && BlockEnd(s[0..], 2, 1).None? && First(before, s) == Unclosed(s)
    ensures VisibleText(Pieces(before, s)) == "" + (" " + s[2..])
  {
    assert s[0..] == s && s[|s|..] == "";
    PiecesCons(before, s);
  }

  lemma OtherFirstIsQuiet(before: string, s: string)
    requires s != "" && !First(before, s).Unclosed?
    ensures UnterminatedComment !in ProblemsOf(First(before, s))
  {
  }

  lemma SuffixOfSuffix(s: string, k: nat, m: nat)
    requires k + m + 2 <= |s|
    ensures s[k..][m..] == s[k + m..] && s[k..][m + 2..] == s[k + m + 2..]
  {
  }

  lemma {:induction false} UnclosedTail(before: string, s: string) returns (n: nat, front: string)
    requires UnterminatedComment in Problems(Pieces(before, s))
    ensures n + 2 <= |s| && s[n] == '/' && s[n + 1] == '*' && BlockEnd(s[n..], 2, 1).None?
    ensures VisibleText(Pieces(before, s)) == front + (" " + s[n + 2..])
    decreases |s|
  {
    var p := First(before, s);
    if p.Unclosed? {
      n, front := 0, "";
      UnclosedFirst(before, s);
    } else {
      PiecesCons(before, s);
      OtherFirstIsQuiet(before, s);
      var m, f := UnclosedTail(before + Source(p), s[|Source(p)|..]);
      n, front := |Source(p)| + m, Visible(p) + f;
      SuffixOfSuffix(s, |Source(p)|, m);
      Regroup(Visible(p), f, " " + s[n + 2..]);
    }
  }

  /** What follows the opener of a comment that is never closed is not hidden: it ends the text the scanner reads, one blank for the opener. */
  lemma UnterminatedTailStaysVisible(s: string) returns (n: nat, front: string)
    requires UnterminatedComment in Problems(Pieces("", s))
    ensures n + 2 <= |s| && s[n] == '/' && s[n + 1] == '*' && BlockEnd(s[n..], 2, 1).None?
    ensures Joined(Segments(Pieces("", s), "")) == front + " " + s[n + 2..]
  {
    n, front := UnclosedTail("", s);
    SegmentsHoldVisibleText(Pieces("", s), "");
  }

  /** A problem-free input has only closed segments. */
  lemma {:induction false} NoProblemMeansClosed(ps: seq<Piece>, code: string)
    requires Problems(ps) == {}
    ensures forall g :: g in Segments(ps, code) ==> g.closed
    decreases |ps|
  {
    if ps != [] {
      assert ProblemsOf(ps[0]) <= Problems(ps) && Problems(ps[1..]) <= Problems(ps);
      if ps[0].Literal? {
        NoProblemMeansClosed(ps[1..], "");
      } else {
        NoProblemMeansClosed(ps[1..], code + Visible(ps[0]));
      }
    }
  }

  // ---------------------------------------------------------------- nesting depth

  /** Nesting depth once everything from `j` up to exactly `k` is scanned at depth `d`; None when `k` falls inside a delimiter. */
  function DepthAt(s: string, j: nat, d: int, k: nat): Option<int>
    requires j <= |s|
    decreases |s| - j
  {
    if j == k then Some(d)
    else if j > k || j == |s| then None
    else if At(s, j, '/', '*') then DepthAt(s, j + 2, d + 1, k)
    else if At(s, j, '*', '/') then DepthAt(s, j + 2, d - 1, k)
    else DepthAt(s, j + 1, d, k)
  }

  lemma {:induction false} BlockEndIsFirstZero(s: string, j: nat, depth: nat)
    requires j <= |s| && depth > 0
    ensures BlockEnd(s, j, depth).Some? ==> DepthAt(s, j, depth, BlockEnd(s, j, depth).value) == Some(0)
    ensures forall k: nat :: DepthAt(s, j, depth, k) == Some(0) ==> BlockEnd(s, j, depth).Some? && BlockEnd(s, j, depth).value <= k
    decreases |s| - j
  {
    if j < |s| {
      var step := if At(s, j, '/', '*') || At(s, j, '*', '/') then 2 else 1;
      var next := if At(s, j, '/', '*') then depth + 1 else if At(s, j, '*', '/') then depth - 1 else depth;
      if next > 0 {
        BlockEndIsFirstZero(s, j + step, next);
      }
      forall k: nat | DepthAt(s, j, depth, k) == Some(0)
        ensures BlockEnd(s, j, depth).Some? && BlockEnd(s, j, depth).value <= k
      {
        assert DepthAt(s, j + step, next, k) == Some(0);
      }
    }
  }

  lemma DepthAfterOpener(s: string, k: nat)
    requires At(s, 0, '/', '*') && k > 0
    ensures DepthAt(s, 0, 0, k) == DepthAt(s, 2, 1, k)
  {
  }

  lemma UnclosedNeverZero(s: string)
    requires At(s, 0, '/', '*') && BlockEnd(s, 2, 1).None?
    ensures forall k: nat :: k > 0 ==> DepthAt(s, 0, 0, k) != Some(0)
  {
    BlockEndIsFirstZero(s, 2, 1);
    forall k: nat | k > 0 ensures DepthAt(s, 0, 0, k) != Some(0) { DepthAfterOpener(s, k); }
  }

  lemma ClosedAtFirstZero(s: string)
    requires At(s, 0, '/', '*') && BlockEnd(s, 2, 1).Some?
    ensures BlockEnd(s, 2, 1).value > 0 && DepthAt(s, 0, 0, BlockEnd(s, 2, 1).value) == Some(0)
    ensures forall k: nat :: 0 < k < BlockEnd(s, 2, 1).value ==> DepthAt(s, 0, 0, k) != Some(0)
  {
    BlockEndIsFirstZero(s, 2, 1);
    DepthAfterOpener(s, BlockEnd(s, 2, 1).value);
    forall k: nat | 0 < k < BlockEnd(s, 2, 1).value ensures DepthAt(s, 0, 0, k) != Some(0) { DepthAfterOpener(s, k); }
  }

  lemma CommentAtStart(before: string, s: string)
    requires At(s, 0, '/', '*')
    ensures BlockEnd(s, 2, 1).None? ==> First(before, s).Unclosed?
    ensures BlockEnd(s, 2, 1).Some? ==> First(before, s).Comment? && |First(before, s).source| == BlockEnd(s, 2, 1).value
  {
  }

  /** A block comment ends exactly where its depth first returns to zero, and is unclosed exactly when it never does. */
  lemma BlockCommentEndsAtDepthZero(before: string, s: string)
    requires At(s, 0, '/', '*')
    ensures First(before, s).Comment? || First(before, s).Unclosed?
    ensures First(before, s).Comment? <==> exists k: nat :: k > 0 && DepthAt(s, 0, 0, k) == Some(0)
    ensures First(before, s).Comment? ==>
              var n := |First(before, s).source|;
              DepthAt(s, 0, 0, n) == Some(0) && forall k: nat :: 0 < k < n ==> DepthAt(s, 0, 0, k) != Some(0)
  {
    CommentAtStart(before, s);
    if BlockEnd(s, 2, 1).Some? {
      ClosedAtFirstZero(s);
    } else {
      UnclosedNeverZero(s);
    }
  }

  // ---------------------------------------------------------------- comment removal is a fixed point

  function Cleaned(ps: seq<Piece>): seq<Piece> {
    if ps == [] then [] else [if ps[0].Comment? then Char(' ') else ps[0]] + Cleaned(ps[1..])
  }

  lemma {:induction false} CleanedSameSegments(ps: seq<Piece>, code: string)
    ensures Segments(Cleaned(ps), code) == Segments(ps, code)
    decreases |ps|
  {
    if ps != [] {
      assert Cleaned(ps)[1..] == Cleaned(ps[1..]);
      if ps[0].Literal? {
        CleanedSameSegments(ps[1..], "");
      } else {
        CleanedSameSegments(ps[1..], code + Visible(ps[0]));
      }
    }
  }

  lemma {:induction false} CleanedHasNoComment(ps: seq<Piece>)
    ensures forall p :: p in Cleaned(ps) ==> !p.Comment?
    ensures Problems(Cleaned(ps)) == Problems(ps)
  {
    if ps != [] {
      CleanedHasNoComment(ps[1..]);
      assert Cleaned(ps)[1..] == Cleaned(ps[1..]);
    }
  }

  /** The text before two lexing positions looks the same to the next token, or the next token cannot look back. */
  predicate SameLookback(p: string, q: string, s: string) {
    || s == "" || IsNewline(s[0])
    || (EndsWithEscapePrefix(p) == EndsWithEscapePrefix(q) && EndsWithIdentChar(p) == EndsWithIdentChar(q))
  }

  /** The cleaned text starts like the original, except that a comment has become a blank. */
  lemma CleanedHead(before: string, s: string)
    requires s != "" && Problems(Pieces(before, s)) == {}
    ensures VisibleText(Pieces(before, s)) != ""
    ensures var o := VisibleText(Pieces(before, s)); o[0] == s[0] || (o[0] == ' ' && First(before, s).Comment?)
  {
    var ps := Pieces(before, s);
    assert ps[0] == First(before, s);
    assert ProblemsOf(ps[0]) <= Problems(ps);
    assert !ps[0].Unclosed?;
    assert VisibleText(ps) == Visible(ps[0]) + VisibleText(ps[1..]);
  }

  /** The two texts hold the same first `n` characters. */
  predicate Agree(a: string, b: string, n: nat) {
    n <= |a| && n <= |b| && forall m :: 0 <= m < n ==> a[m] == b[m]
  }

  lemma {:induction false} QuoteEndStable(a: string, b: string, j: nat, quote: char, escaped: bool, n: nat)
    requires j <= |a| && QuoteEnd(a, j, quote, escaped) == Some(n) && Agree(a, b, n)
    requires |b| == n || b[n] != quote
    ensures QuoteEnd(b, j, quote, escaped) == Some(n)
    decreases |a| - j
  {
    if (escaped && a[j] == '\\') || At(a, j, quote, quote) {
      QuoteEndStable(a, b, j + 2, quote, escaped, n);
    } else if a[j] != quote {
      QuoteEndStable(a, b, j + 1, quote, escaped, n);
    }
  }

  /** A closed literal is followed by something other than its own quote. */
  lemma {:induction false} QuoteEndMaximal(s: string, j: nat, quote: char, escaped: bool)
    requires quote != '\\' && j <= |s|
    ensures var r := QuoteEnd(s, j, quote, escaped); r.Some? && r.value < |s| ==> s[r.value] != quote
    decreases |s| - j
  {
    if j < |s| && ((escaped && s[j] == '\\') || At(s, j, quote, quote)) {
      if j + 2 <= |s| { QuoteEndMaximal(s, j + 2, quote, escaped); }
    } else if j < |s| && s[j] != quote {
      QuoteEndMaximal(s, j + 1, quote, escaped);
    }
  }

  lemma {:induction false} TagEndStable(a: string, b: string, j: nat, n: nat)
    requires j <= |a| && TagEnd(a, j) == Some(n) && Agree(a, b, n)
    ensures TagEnd(b, j) == Some(n)
    decreases |a| - j
  {
    if a[j] != '$' {
      TagEndStable(a, b, j + 1, n);
    }
  }

  lemma IndexOfStable(a: string, b: string, pattern: string, from: nat, n: nat)
    requires from <= |a| && IndexOf(a, pattern, from) == Some(n) && Agree(a, b, n + |pattern|)
    ensures IndexOf(b, pattern, from) == Some(n)
  {
    assert OccursAt(b, pattern, n);
    forall k: nat | from <= k < n
      ensures !OccursAt(b, pattern, k)
    {
      assert !OccursAt(a, pattern, k);
    }
  }

  /** Removing comments never creates a dollar-quote tag: a tag holds no blank. */
  lemma {:induction false} NoNewTag(before: string, s: string)
    requires Problems(Pieces(before, s)) == {}
    requires TagEnd(VisibleText(Pieces(before, s)), 0).Some?
    ensures TagEnd(s, 0).Some?
    decreases |s|
  {
    var ps := Pieces(before, s);
    if s != "" {
      CleanedHead(before, s);
      if s[0] != '$' {
        assert First(before, s) == Char(s[0]);
        assert ps[1..] == Pieces(before + [s[0]], s[1..]);
        assert Problems(ps[1..]) <= Problems(ps);
        TagEndTail(VisibleText(ps));
        assert VisibleText(ps)[1..] == VisibleText(ps[1..]);
        NoNewTag(before + [s[0]], s[1..]);
        TagEndTail(s);
      }
    }
  }

  lemma TagEndTail(s: string)
    requires s != ""
    ensures TagEnd(s, 1).Some? <==> TagEnd(s[1..], 0).Some?
  {
    TagEndShift(s, 1, 1);
  }

  lemma LoneChar(q: string, o: string)
    requires o != "" && o[0] != '\'' && o[0] != '"' && !At(o, 0, '-', '-') && !At(o, 0, '/', '*') && DollarOpenEnd(o, 0).None?
    ensures First(q, o) == Char(o[0])
  {
  }

  lemma CharIsLone(p: string, s: string)
    requires s != "" && First(p, s).Char?
    ensures s[0] != '\'' && s[0] != '"' && !At(s, 0, '-', '-') && !At(s, 0, '/', '*') && DollarOpenEnd(s, 0).None?
  {
  }

  lemma NoNewOpener(before: string, s: string, tail: string)
    requires s != "" && s[1..] != "" && DollarOpenEnd(s, 0).None? && Problems(Pieces(before, s[1..])) == {}
    requires tail == VisibleText(Pieces(before, s[1..]))
    ensures DollarOpenEnd([s[0]] + tail, 0).None?
  {
    var o := [s[0]] + tail;
    assert o[1..] == tail;
    CleanedHead(before, s[1..]);
    if s[0] == '$' && TagEnd(tail, 0).Some? {
      NoNewTag(before, s[1..]);
    }
    TagEndTail(s);
    TagEndTail(o);
  }

  /** The character starts nothing longer in the cleaned text either. */
  lemma CharBefore(p: string, q: string, s: string, tail: string)
    requires s != "" && First(p, s).Char? && Problems(Pieces(p + [s[0]], s[1..])) == {}
    requires tail == VisibleText(Pieces(p + [s[0]], s[1..]))
    ensures First(q, [s[0]] + tail) == Char(s[0])
  {
    CharIsLone(p, s);
    if s[1..] != "" {
      CleanedHead(p + [s[0]], s[1..]);
      NoNewOpener(p + [s[0]], s, tail);
    }
    LoneChar(q, [s[0]] + tail);
  }

  /** A single code character is still a code character once the comments after it are gone. */
  lemma CharStaysChar(p: string, q: string, s: string)
    requires s != "" && Problems(Pieces(p, s)) == {} && First(p, s).Char?
    ensures First(q, VisibleText(Pieces(p, s))) == Char(s[0])
  {
    var rest := Pieces(p + [s[0]], s[1..]);
    PiecesCons(p, s);
    assert Problems(rest) <= Problems(Pieces(p, s));
    CharBefore(p, q, s, VisibleText(rest));
  }

  lemma QuotedStaysQuoted(p: string, q: string, s: string, o: string, n: nat)
    requires s != "" && (s[0] == '\'' || s[0] == '"') && SameLookback(p, q, s)
    requires First(p, s).segment.closed && |First(p, s).segment.text| == n
    requires Agree(s, o, n) && (n == |o| || o[n] != s[0])
    ensures First(q, o) == First(p, s)
  {
    QuoteEndStable(s, o, 1, s[0], s[0] == '\'' && EndsWithEscapePrefix(p), n);
    assert o[..n] == s[..n];
  }

  lemma ClosedDollar(p: string, s: string) returns (d: nat, k: nat)
    requires s != "" && First(p, s).Literal? && First(p, s).segment.kind == Dollar && First(p, s).segment.closed
    ensures DollarOpenEnd(s, 0) == Some(d) && IndexOf(s, s[..d], d) == Some(k) && |First(p, s).segment.text| == k + d
  {
    d := DollarOpenEnd(s, 0).value;
    k := IndexOf(s, s[..d], d).value;
  }

  lemma OpenerStable(s: string, o: string, d: nat)
    requires s != "" && DollarOpenEnd(s, 0) == Some(d) && Agree(s, o, d)
    ensures o != "" && DollarOpenEnd(o, 0) == Some(d) && o[..d] == s[..d]
  {
    TagEndStable(s, o, 1, d);
  }

  lemma DollarStaysDollar(p: string, q: string, s: string, o: string, n: nat)
    requires s != "" && First(p, s).Literal? && First(p, s).segment.kind == Dollar && SameLookback(p, q, s)
    requires First(p, s).segment.closed && |First(p, s).segment.text| == n
    requires Agree(s, o, n)
    ensures First(q, o) == First(p, s)
  {
    var d, k := ClosedDollar(p, s);
    OpenerStable(s, o, d);
    IndexOfStable(s, o, s[..d], d, k);
    DollarFirst(p, s, d, s[..d]);
    DollarFirst(q, o, d, s[..d]);
    assert o[..n] == s[..n];
  }

  lemma LiteralThenTail(p: string, q: string, s: string, o: string)
    requires s != "" && First(p, s).Literal? && First(p, s).segment.closed && SameLookback(p, q, s)
    requires var n := |First(p, s).segment.text|;
             Agree(s, o, n) && (n == |s| ==> n == |o|) && (n < |o| ==> n < |s| && (o[n] == s[n] || o[n] == ' '))
    ensures First(q, o) == First(p, s)
  {
    var n := |First(p, s).segment.text|;
    if s[0] == '\'' || s[0] == '"' {
      QuoteEndMaximal(s, 1, s[0], s[0] == '\'' && EndsWithEscapePrefix(p));
      QuotedStaysQuoted(p, q, s, o, n);
    } else {
      DollarStaysDollar(p, q, s, o, n);
    }
  }

  /** A closed literal is read back whole and unchanged. */
  lemma LiteralStaysLiteral(p: string, q: string, s: string)
    requires s != "" && Problems(Pieces(p, s)) == {} && First(p, s).Literal? && SameLookback(p, q, s)
    ensures First(q, VisibleText(Pieces(p, s))) == First(p, s)
  {
    var ps := Pieces(p, s);
    var t := First(p, s).segment.text;
    var n := |t|;
    assert ps[0] == First(p, s) && ProblemsOf(ps[0]) <= Problems(ps);
    assert ps[1..] == Pieces(p + t, s[n..]) && Problems(ps[1..]) <= Problems(ps);
    var tail := VisibleText(ps[1..]);
    assert VisibleText(ps) == t + tail;
    if s[n..] != "" {
      CleanedHead(p + t, s[n..]);
    }
    LiteralThenTail(p, q, s, t + tail);
  }

  lemma LookbackByText(p: string, q: string, t: string, rest: string)
    requires |t| >= 2
    ensures SameLookback(p + t, q + t, rest)
  {
    var a, b := p + t, q + t;
    assert a[|a| - 1] == b[|b| - 1] == t[|t| - 1] && a[|a| - 2] == b[|b| - 2] == t[|t| - 2];
  }

  lemma LookbackByChar(p: string, q: string, s: string, rest: string)
    requires s != "" && SameLookback(p, q, s)
    ensures SameLookback(p + [s[0]], q + [s[0]], rest)
  {
    var a, b := p + [s[0]], q + [s[0]];
    assert a[|a| - 1] == b[|b| - 1] == s[0];
    if |p| >= 1 { assert a[|a| - 2] == p[|p| - 1]; }
    if |q| >= 1 { assert b[|b| - 2] == q[|q| - 1]; }
  }

  lemma LookbackByComment(p: string, q: string, s: string)
    requires s != "" && First(p, s).Comment?
    ensures SameLookback(p + Source(First(p, s)), q + " ", s[|Source(First(p, s))|..])
  {
    var a, b := p + Source(First(p, s)), q + " ";
    assert b[|b| - 1] == ' ';
    if !At(s, 0, '-', '-') {
      BlockEndsWithSlash(s, 2, 1);
      assert a[|a| - 1] == '/';
    }
  }

  lemma ClosedLiteralIsLong(p: string, s: string)
    requires s != "" && First(p, s).Literal? && First(p, s).segment.closed
    ensures |First(p, s).segment.text| >= 2
  {
  }

  /** Lookback survives one step: the piece just read decides what the next one sees. */
  lemma LookbackAfter(p: string, q: string, s: string)
    requires s != "" && SameLookback(p, q, s)
    requires !First(p, s).Unclosed? && (First(p, s).Literal? ==> First(p, s).segment.closed)
    ensures SameLookback(p + Source(First(p, s)), q + Visible(First(p, s)), s[|Source(First(p, s))|..])
  {
    match First(p, s)
    case Comment(_) => LookbackByComment(p, q, s);
    case Char(_) => LookbackByChar(p, q, s, s[1..]);
    case Literal(g, _) =>
      ClosedLiteralIsLong(p, s);
      LookbackByText(p, q, g.text, s[|g.text|..]);
  }

  lemma {:induction false} BlockEndsWithSlash(s: string, j: nat, depth: nat)
    requires j <= |s| && depth > 0 && BlockEnd(s, j, depth).Some?
    ensures var n := BlockEnd(s, j, depth).value; 1 <= n <= |s| && s[n - 1] == '/'
    decreases |s| - j
  {
    if At(s, j, '/', '*') {
      BlockEndsWithSlash(s, j + 2, depth + 1);
    } else if At(s, j, '*', '/') {
      if depth > 1 { BlockEndsWithSlash(s, j + 2, depth - 1); }
    } else {
      BlockEndsWithSlash(s, j + 1, depth);
    }
  }

  /** The pieces of a text are its first piece and those of the rest; what is said of all is said of both. */
  lemma PiecesCons(p: string, s: string)
    requires s != ""
    ensures var x, ps := First(p, s), Pieces(p, s);
            var rest := Pieces(p + Source(x), s[|Source(x)|..]);
            && ps == [x] + rest && Problems(ps) == ProblemsOf(x) + Problems(rest) && VisibleText(ps) == Visible(x) + VisibleText(rest)
            && Cleaned(ps) == [if x.Comment? then Char(' ') else x] + Cleaned(rest)
  {
    var x := First(p, s);
    var rest := Pieces(p + Source(x), s[|Source(x)|..]);
    assert ([x] + rest)[1..] == rest;
  }

  lemma PiecesFrom(q: string, o: string, y: Piece, tail: string, rest: seq<Piece>)
    requires o == Source(y) + tail && Source(y) != "" && First(q, o) == y && Pieces(q + Source(y), tail) == rest
    ensures Pieces(q, o) == [y] + rest
  {
    assert o[|Source(y)|..] == tail;
  }

  lemma BlankIsChar(q: string, tail: string)
    ensures First(q, " " + tail) == Char(' ')
  {
  }

  lemma CommentStaysBlank(p: string, q: string, s: string)
    requires s != "" && First(p, s).Comment?
    ensures First(q, VisibleText(Pieces(p, s))) == Char(' ')
  {
    PiecesCons(p, s);
    BlankIsChar(q, VisibleText(Pieces(p + Source(First(p, s)), s[|Source(First(p, s))|..])));
  }

  lemma FirstIsFine(p: string, s: string)
    requires s != "" && Problems(Pieces(p, s)) == {}
    ensures ProblemsOf(First(p, s)) == {} && !First(p, s).Unclosed?
  {
    PiecesCons(p, s);
    assert ProblemsOf(First(p, s)) <= Problems(Pieces(p, s));
  }

  lemma RelexFirst(p: string, q: string, s: string)
    requires s != "" && Problems(Pieces(p, s)) == {} && SameLookback(p, q, s)
    ensures First(q, VisibleText(Pieces(p, s))) == if First(p, s).Comment? then Char(' ') else First(p, s)
  {
    FirstIsFine(p, s);
    match First(p, s)
    case Comment(_) => CommentStaysBlank(p, q, s);
    case Char(_) => CharStaysChar(p, q, s);
    case Literal(_, _) => LiteralStaysLiteral(p, q, s);
  }

  lemma {:induction false} RelexPieces(p: string, q: string, s: string)
    requires Problems(Pieces(p, s)) == {} && SameLookback(p, q, s)
    ensures Pieces(q, VisibleText(Pieces(p, s))) == Cleaned(Pieces(p, s))
    decreases |s|
  {
    if s != "" {
      var x := First(p, s);
      var rest := s[|Source(x)|..];
      PiecesCons(p, s);
      FirstIsFine(p, s);
      LookbackAfter(p, q, s);
      RelexPieces(p + Source(x), q + Visible(x), rest);
      RelexFirst(p, q, s);
      var y := if x.Comment? then Char(' ') else x;
      PiecesFrom(q, VisibleText(Pieces(p, s)), y, VisibleText(Pieces(p + Source(x), rest)), Cleaned(Pieces(p + Source(x), rest)));
    }
  }

  /** Re-lexing what the lexer left of a problem-free input finds no comment, no problem, and the same segments. */
  lemma CommentRemovalIsFixedPoint(sql: string)
    requires Problems(Pieces("", sql)) == {}
    ensures var again := Pieces("", Joined(Segments(Pieces("", sql), "")));
            && Segments(again, "") == Segments(Pieces("", sql), "")
            && Problems(again) == {}
            && forall p :: p in again ==> !p.Comment?
  {
    var ps := Pieces("", sql);
    SegmentsHoldVisibleText(ps, "");
    assert Joined(Segments(ps, "")) == VisibleText(ps);
    RelexPieces("", "", sql);
    CleanedSameSegments(ps, "");
    CleanedHasNoComment(ps);
  }

  // ---------------------------------------------------------------- writing a value and reading it back

  function EncodedChar(c: char, quote: char, escaped: bool): string {
    if escaped && (c == quote || c == '\\') then ['\\', c] else if c == quote then [quote, quote] else [c]
  }

  /** A value as it is written inside a literal: doubled quotes, or backslash escapes in an E'...' literal. */
  function Encode(v: string, quote: char, escaped: bool): string {
    if v == "" then "" else EncodedChar(v[0], quote, escaped) + Encode(v[1..], quote, escaped)
  }

  lemma QuoteEndOverChar(s: string, j: nat, c: char, quote: char, escaped: bool)
    requires quote != '\\'
    requires OccursAt(s, EncodedChar(c, quote, escaped), j) && j + |EncodedChar(c, quote, escaped)| < |s|
    ensures QuoteEnd(s, j, quote, escaped) == QuoteEnd(s, j + |EncodedChar(c, quote, escaped)|, quote, escaped)
  {
    var e := EncodedChar(c, quote, escaped);
    assert s[j + 0] == e[0];
    if |e| == 2 {
      assert s[j + 1] == e[1];
    }
  }

  lemma OccursInParts(s: string, first: string, rest: string, j: nat)
    requires OccursAt(s, first + rest, j)
    ensures OccursAt(s, first, j) && OccursAt(s, rest, j + |first|)
  {
    forall k | 0 <= k < |first| ensures s[j + k] == first[k] { assert s[j + k] == (first + rest)[k]; }
    forall k | 0 <= k < |rest| ensures s[j + |first| + k] == rest[k] { assert s[j + (|first| + k)] == (first + rest)[|first| + k]; }
  }

  lemma QuoteEndAtQuote(s: string, j: nat, quote: char, escaped: bool)
    requires quote != '\\' && j < |s| && s[j] == quote
    ensures QuoteEnd(s, j, quote, escaped) == Some(j + 1) <==> (j + 1 < |s| ==> s[j + 1] != quote)
  {
  }

  lemma {:induction false} QuoteEndOverEncoded(s: string, j: nat, v: string, quote: char, escaped: bool)
    requires quote != '\\' && OccursAt(s, Encode(v, quote, escaped), j) && j + |Encode(v, quote, escaped)| < |s|
    ensures QuoteEnd(s, j, quote, escaped) == QuoteEnd(s, j + |Encode(v, quote, escaped)|, quote, escaped)
    decreases v
  {
    if v != "" {
      var first, rest := EncodedChar(v[0], quote, escaped), Encode(v[1..], quote, escaped);
      OccursInParts(s, first, rest, j);
      QuoteEndOverChar(s, j, v[0], quote, escaped);
      QuoteEndOverEncoded(s, j + |first|, v[1..], quote, escaped);
    }
  }

  lemma QuotedFirst(before: string, s: string, quote: char, escaped: bool, text: string)
    requires quote == '\'' || quote == '"'
    requires s != "" && s[0] == quote && escaped == (quote == '\'' && EndsWithEscapePrefix(before)) && text <= s
    ensures First(before, s) == Literal(Segment(if quote == '\'' then Str else Ident, text, "", true), false) <==>
            QuoteEnd(s, 1, quote, escaped) == Some(|text|)
  {
  }

  lemma QuotedTextEnds(v: string, quote: char, escaped: bool, text: string, s: string, rest: string)
    requires (quote == '\'' || quote == '"') && text == [quote] + Encode(v, quote, escaped) + [quote] && s == text + rest
    ensures s != "" && s[0] == quote && text <= s
    ensures QuoteEnd(s, 1, quote, escaped) == Some(|text|) <==> rest == "" || rest[0] != quote
  {
    var e := Encode(v, quote, escaped);
    QuotedEnd(e, quote, rest);
    QuoteEndOverEncoded(s, 1, v, quote, escaped);
    QuoteEndAtQuote(s, 1 + |e|, quote, escaped);
  }

  /** An e or E right before the quote that is not the end of a longer name. */
  predicate EscapesBefore(before: string) {
    && before != "" && (before[|before| - 1] == 'e' || before[|before| - 1] == 'E')
    && (|before| > 1 ==> !ContinuesName(before[|before| - 2]))
  }

  /** Any value, quoted as PostgreSQL quotes it, is lexed as exactly one closed literal; only the same quote right after it would carry it on. */
  lemma QuotedValueIsOneLiteral(before: string, v: string, quote: char, rest: string)
    requires quote == '\'' || quote == '"'
    ensures var escaped := quote == '\'' && EscapesBefore(before);
            var text := [quote] + Encode(v, quote, escaped) + [quote];
            First(before, text + rest) == Literal(Segment(if quote == '\'' then Str else Ident, text, "", true), false) <==>
              rest == "" || rest[0] != quote
  {
    var escaped := quote == '\'' && EscapesBefore(before);
    var text := [quote] + Encode(v, quote, escaped) + [quote];
    QuotedTextEnds(v, quote, escaped, text, text + rest, rest);
    QuotedFirst(before, text + rest, quote, escaped, text);
  }

  lemma QuotedEnd(e: string, quote: char, rest: string)
    ensures var text := [quote] + e + [quote];
            var s := text + rest;
            && 1 + |e| < |s| && s[0] == quote && text <= s && |text| == |e| + 2
            && OccursAt(s, e, 1)
            && s[1 + |e|] == quote && (|e| + 2 < |s| <==> rest != "") && (rest != "" ==> s[|e| + 2] == rest[0])
  {
  }

  lemma BodyIndex(s: string, open: string, body: string, d: nat, n: nat)
    requires |open| == d && n == d + |body| && n + d <= |s| && s[d..n + d] == body + open
    requires forall k: nat :: k < |body| ==> !OccursAt(body + open, open, k)
    ensures IndexOf(s, open, d) == Some(n)
  {
    var tail := body + open;
    assert forall m :: 0 <= m < |tail| ==> tail[m] == s[d..n + d][m];
    forall m | 0 <= m < d ensures s[n + m] == open[m] { assert tail[|body| + m] == open[m]; }
    assert OccursAt(s, open, n);
    forall k: nat | d <= k < n
      ensures !OccursAt(s, open, k)
    {
      assert !OccursAt(tail, open, k - d);
      var m :| 0 <= m < d && tail[k - d + m] != open[m];
      assert s[k + m] != open[m];
    }
  }

  /** A body that does not hold its own delimiter early is lexed as exactly one dollar-quoted segment, whatever else it contains. */
  lemma DollarBodyIsOneLiteral(before: string, open: string, body: string, rest: string)
    requires open != "" && DollarOpenEnd(open, 0) == Some(|open|)
    requires forall k: nat :: k < |body| ==> !OccursAt(body + open, open, k)
    ensures First(before, open + body + open + rest) == Literal(Segment(Dollar, open + body + open, open, true), EndsWithIdentChar(before))
  {
    DollarBodyIn(before, open, body, open + body + open + rest);
  }

  lemma DollarBodyIn(before: string, open: string, body: string, s: string)
    requires open != "" && DollarOpenEnd(open, 0) == Some(|open|)
    requires forall k: nat :: k < |body| ==> !OccursAt(body + open, open, k)
    requires open + body + open <= s
    ensures First(before, s) == Literal(Segment(Dollar, open + body + open, open, true), EndsWithIdentChar(before))
  {
    var d, n := |open|, |open| + |body|;
    var text := open + body + open;
    assert s[..n + d] == text && s[..d] == text[..d] == open && s[d..n + d] == text[d..] == body + open;
    BodyIndex(s, open, body, d, n);
    DollarPiece(before, s, open, d, n);
  }

  lemma DollarPiece(before: string, s: string, open: string, d: nat, n: nat)
    requires d <= n <= |s| - d && s[..d] == open
    requires d >= 1 && DollarOpenEnd(open, 0) == Some(d) && IndexOf(s, open, d) == Some(n)
    ensures First(before, s) == Literal(Segment(Dollar, s[..n + d], open, true), EndsWithIdentChar(before))
  {
    assert s[0] == open[0] && s[1] == open[1];
    TagEndStable(open, s, 1, d);
  }

  // ---------------------------------------------------------------- positions in the whole input

  function Shift(i: nat, r: Option<nat>): Option<nat> { if r.None? then None else Some(i + r.value) }

  lemma {:induction false} LineEndShift(s: string, i: nat, j: nat)
    requires i <= j <= |s|
    ensures LineEnd(s, j) == i + LineEnd(s[i..], j - i)
    decreases |s| - j
  {
    if j < |s| && !IsNewline(s[j]) { LineEndShift(s, i, j + 1); }
  }

  lemma {:induction false} BlockEndShift(s: string, i: nat, j: nat, depth: nat)
    requires i <= j <= |s|
    ensures BlockEnd(s, j, depth) == Shift(i, BlockEnd(s[i..], j - i, depth))
    decreases |s| - j
  {
    if depth > 0 && j < |s| {
      if At(s, j, '/', '*') {
        BlockEndShift(s, i, j + 2, depth + 1);
      } else if At(s, j, '*', '/') {
        BlockEndShift(s, i, j + 2, depth - 1);
      } else {
        BlockEndShift(s, i, j + 1, depth);
      }
    }
  }

  lemma {:induction false} QuoteEndShift(s: string, i: nat, j: nat, quote: char, escaped: bool)
    requires i <= j <= |s|
    ensures QuoteEnd(s, j, quote, escaped) == Shift(i, QuoteEnd(s[i..], j - i, quote, escaped))
    decreases |s| - j
  {
    if j < |s| {
      if (escaped && s[j] == '\\') || At(s, j, quote, quote) {
        if j + 2 <= |s| { QuoteEndShift(s, i, j + 2, quote, escaped); }
      } else if s[j] != quote {
        QuoteEndShift(s, i, j + 1, quote, escaped);
      }
    }
  }

  lemma {:induction false} TagEndShift(s: string, i: nat, j: nat)
    requires i <= j <= |s|
    ensures TagEnd(s, j) == Shift(i, TagEnd(s[i..], j - i))
    decreases |s| - j
  {
    if j < |s| && s[j] != '$' && IsTagChar(s[j]) { TagEndShift(s, i, j + 1); }
  }

  lemma IndexOfShift(s: string, pattern: string, i: nat, from: nat)
    requires i <= from <= |s|
    ensures IndexOf(s, pattern, from) == Shift(i, IndexOf(s[i..], pattern, from - i))
  {
    forall k: nat | i <= k
      ensures OccursAt(s, pattern, k) == OccursAt(s[i..], pattern, k - i)
    {
      if OccursAt(s[i..], pattern, k - i) {
        forall m | 0 <= m < |pattern| ensures s[k + m] == pattern[m] { assert s[i..][k - i + m] == pattern[m]; }
      }
    }
    var r := IndexOf(s[i..], pattern, from - i);
    if r.Some? {
      assert OccursAt(s, pattern, i + r.value);
    }
  }

  // ---------------------------------------------------------------- the lexer as the source writes it

  method BlockCommentEnd(sql: string, i: nat) returns (j: nat, depth: nat)
    requires i + 2 <= |sql|
    ensures BlockEnd(sql, i + 2, 1) == if depth == 0 then Some(j) else None
  {
    depth := 1;
    j := i + 2;
    while j < |sql| && depth > 0
      invariant i + 2 <= j <= |sql|
      invariant BlockEnd(sql, i + 2, 1) == BlockEnd(sql, j, depth)
      decreases |sql| - j
    {
      if j + 1 < |sql| && sql[j] == '/' && sql[j + 1] == '*' {
        depth, j := depth + 1, j + 2;
      } else if j + 1 < |sql| && sql[j] == '*' && sql[j + 1] == '/' {
        depth, j := depth - 1, j + 2;
      } else {
        j := j + 1;
      }
    }
  }

  method LiteralEnd(sql: string, i: nat, escaped: bool) returns (j: nat, closed: bool)
    requires i < |sql|
    ensures QuoteEnd(sql, i + 1, sql[i], escaped) == if closed then Some(j) else None
  {
    var ch := sql[i];
    j, closed := i + 1, false;
    while j < |sql|
      invariant i + 1 <= j <= |sql| + 1
      invariant !closed
      invariant QuoteEnd(sql, i + 1, ch, escaped) == if j <= |sql| then QuoteEnd(sql, j, ch, escaped) else None
      decreases |sql| - j
    {
      if escaped && sql[j] == '\\' {
        j := j + 2;
        continue;
      }
      if sql[j] == ch {
        if j + 1 < |sql| && sql[j + 1] == ch {
          j := j + 2;
          continue;
        }
        closed := true;
        j := j + 1;
        break;
      }
      j := j + 1;
    }
  }

  /** One step of the piece list, at a position of the whole input. */
  function PieceAt(sql: string, i: nat): (p: Piece)
    requires i < |sql|
  {
    First(sql[..i], sql[i..])
  }

  ghost predicate StartsAt(sql: string, p: Piece, i: nat, next: nat) { i < |sql| && p == PieceAt(sql, i) && next == i + |Source(p)| }

  /** `pos` lists where each piece of `ps` starts, and then the end of the input. */
  ghost predicate Starts(sql: string, ps: seq<Piece>, pos: seq<nat>) {
    && |pos| == |ps| + 1 && pos[|ps|] == |sql|
    && forall k :: 0 <= k < |ps| ==> StartsAt(sql, ps[k], pos[k], pos[k + 1])
  }

  lemma SliceStep(sql: string, i: nat, t: string)
    requires i <= |sql| && t <= sql[i..]
    ensures sql[..i] + t == sql[..i + |t|] && sql[i..][|t|..] == sql[i + |t|..]
  {
  }

  lemma PieceFits(sql: string, i: nat)
    requires i < |sql|
    ensures 0 < |Source(PieceAt(sql, i))| && i + |Source(PieceAt(sql, i))| <= |sql| && Source(PieceAt(sql, i)) <= sql[i..]
  {
  }

  lemma PiecesStep(sql: string, i: nat, p: Piece, n: nat)
    requires i < n <= |sql| && p == First(sql[..i], sql[i..])
    requires sql[..n] == sql[..i] + Source(p) && sql[n..] == sql[i..][|Source(p)|..]
    ensures Pieces(sql[..i], sql[i..]) == [p] + Pieces(sql[..n], sql[n..])
  {
  }

  lemma StartsCons(sql: string, p: Piece, ps: seq<Piece>, i: nat, pos: seq<nat>)
    requires Starts(sql, ps, pos) && StartsAt(sql, p, i, pos[0])
    ensures Starts(sql, [p] + ps, [i] + pos)
  {
    forall k | 0 <= k < 1 + |ps| ensures StartsAt(sql, ([p] + ps)[k], ([i] + pos)[k], ([i] + pos)[k + 1]) {
      if k > 0 {
        assert StartsAt(sql, ps[k - 1], pos[k - 1], pos[k]);
      }
    }
  }

  lemma {:induction false} PieceStarts(sql: string, i: nat) returns (pos: seq<nat>)
    requires i <= |sql|
    ensures Starts(sql, Pieces(sql[..i], sql[i..]), pos) && pos[0] == i
    decreases |sql| - i
  {
    if i == |sql| {
      pos := [i];
    } else {
      PieceFits(sql, i);
      var n := i + |Source(PieceAt(sql, i))|;
      SliceStep(sql, i, Source(PieceAt(sql, i)));
      PiecesStep(sql, i, PieceAt(sql, i), n);
      var tail := PieceStarts(sql, n);
      StartsCons(sql, PieceAt(sql, i), Pieces(sql[..n], sql[n..]), i, tail);
      pos := [i] + tail;
    }
  }

  lemma ConsStep(p: Piece, rest: seq<Piece>, code: string, found: set<Problem>)
    ensures found + Problems([p] + rest) == (found + ProblemsOf(p)) + Problems(rest)
    ensures Segments([p] + rest, code) == if p.Literal? then Flush(code) + [p.segment] + Segments(rest, "")
                                          else Segments(rest, code + Visible(p))
  {
    assert ([p] + rest)[1..] == rest;
  }

  lemma LineCommentAt(sql: string, i: nat)
    requires At(sql, i, '-', '-')
    ensures PieceAt(sql, i) == Comment(sql[i..LineEnd(sql, i + 2)])
  {
    LineEndShift(sql, i, i + 2);
  }

  lemma BlockCommentAt(sql: string, i: nat)
    requires At(sql, i, '/', '*')
    ensures var n := BlockEnd(sql, i + 2, 1);
            PieceAt(sql, i) == if n.None? then Unclosed(sql[i..]) else Comment(sql[i..n.value])
  {
    BlockEndShift(sql, i, i + 2, 1);
    var n := BlockEnd(sql, i + 2, 1);
    if n.Some? {
      assert sql[i..][..n.value - i] == sql[i..n.value];
    }
  }

  lemma QuotedIs(before: string, s: string, quote: char, escaped: bool, n: Option<nat>)
    requires s != "" && s[0] == quote && (quote == '\'' || quote == '"') && escaped == (quote == '\'' && EndsWithEscapePrefix(before))
    requires n == QuoteEnd(s, 1, quote, escaped)
    ensures First(before, s) == Literal(Segment(if quote == '\'' then Str else Ident, if n.None? then s else s[..n.value], "", n.Some?), false)
  {
  }

  lemma QuotedAt(sql: string, i: nat, escaped: bool)
    requires i < |sql| && (sql[i] == '\'' || sql[i] == '"')
    requires escaped == (sql[i] == '\'' && EndsWithEscapePrefix(sql[..i]))
    ensures var n := QuoteEnd(sql, i + 1, sql[i], escaped);
            var text := if n.None? then sql[i..] else sql[i..n.value];
            PieceAt(sql, i) == Literal(Segment(if sql[i] == '\'' then Str else Ident, text, "", n.Some?), false)
  {
    QuoteEndShift(sql, i, i + 1, sql[i], escaped);
    QuotedIs(sql[..i], sql[i..], sql[i], escaped, QuoteEnd(sql[i..], 1, sql[i], escaped));
    var n := QuoteEnd(sql, i + 1, sql[i], escaped);
    if n.Some? {
      assert sql[i..][..n.value - i] == sql[i..n.value];
    }
  }

  lemma DollarOpenShift(sql: string, i: nat)
    requires i < |sql|
    ensures DollarOpenEnd(sql, i) == Shift(i, DollarOpenEnd(sql[i..], 0))
  {
    if i + 1 < |sql| { TagEndShift(sql, i, i + 1); }
  }

  lemma PrefixOfSuffix(sql: string, i: nat, k: nat)
    requires i <= k <= |sql|
    ensures sql[i..][..k - i] == sql[i..k]
  {
  }

  lemma DollarFirst(before: string, s: string, d: nat, open: string)
    requires s != "" && DollarOpenEnd(s, 0) == Some(d) && open == s[..d]
    ensures First(before, s) == (var n := IndexOf(s, open, d);
              Literal(if n.None? then Segment(Dollar, s, open, false) else Segment(Dollar, s[..n.value + d], open, true), EndsWithIdentChar(before)))
  {
  }

  lemma DollarAt(sql: string, i: nat, d: nat)
    requires i < |sql| && DollarOpenEnd(sql, i) == Some(d)
    ensures var n := IndexOf(sql, sql[i..d], d);
            var text := if n.None? then sql[i..] else sql[i..n.value + (d - i)];
            PieceAt(sql, i) == Literal(Segment(Dollar, text, sql[i..d], n.Some?), EndsWithIdentChar(sql[..i]))
  {
    DollarOpenShift(sql, i);
    PrefixOfSuffix(sql, i, d);
    DollarFirst(sql[..i], sql[i..], d - i, sql[i..d]);
    IndexOfShift(sql, sql[i..d], i, d);
    var n := IndexOf(sql, sql[i..d], d);
    if n.Some? {
      PrefixOfSuffix(sql, i, n.value + (d - i));
    }
  }

  lemma CharAt(sql: string, i: nat)
    requires i < |sql| && !At(sql, i, '-', '-') && !At(sql, i, '/', '*') && sql[i] != '\'' && sql[i] != '"'
    requires sql[i] == '$' ==> DollarOpenEnd(sql, i).None?
    ensures PieceAt(sql, i) == Char(sql[i])
  {
    DollarOpenShift(sql, i);
  }

  method LineCommentEnd(sql: string, i: nat) returns (j: nat)
    requires i + 2 <= |sql|
    ensures j == LineEnd(sql, i + 2)
  {
    j := i + 2;
    while j < |sql| && !IsNewline(sql[j])
      invariant i + 2 <= j <= |sql|
      invariant LineEnd(sql, i + 2) == LineEnd(sql, j)
    {
      j := j + 1;
    }
  }

  /** A string or a quoted identifier, up to its closing quote or the end. */
  method NextQuoted(sql: string, i: nat) returns (p: Piece)
    requires i < |sql| && (sql[i] == '\'' || sql[i] == '"')
    ensures p == PieceAt(sql, i)
  {
    var ch := sql[i];
    var escaped := ch == '\'' && i >= 1 && (sql[i - 1] == 'e' || sql[i - 1] == 'E') && !(i >= 2 && IsIdentChar(sql[i - 2]));
    QuotedAt(sql, i, escaped);
    var j, closed := LiteralEnd(sql, i, escaped);
    if !closed {
      j := |sql|;
      assert sql[i..j] == sql[i..];
    }
    p := Literal(Segment(if ch == '\'' then Str else Ident, sql[i..j], "", closed), false);
  }

  /** A dollar quote, up to its opener written again or the end. */
  method NextDollar(sql: string, i: nat) returns (p: Piece)
    requires i < |sql| && sql[i] == '$' && DollarOpenEnd(sql, i).Some?
    ensures p == PieceAt(sql, i)
  {
    var d := DollarOpenEnd(sql, i).value;
    DollarAt(sql, i, d);
    var open := sql[i..d];
    var endAt := IndexOf(sql, open, d);
    var text := if endAt.None? then sql[i..] else sql[i..endAt.value + |open|];
    p := Literal(Segment(Dollar, text, open, endAt.Some?), i >= 1 && IsIdentChar(sql[i - 1]));
  }

  /** One turn of the source's main loop: what stands at position `i`. */
  method NextPiece(sql: string, i: nat) returns (p: Piece)
    requires i < |sql|
    ensures p == PieceAt(sql, i)
  {
    var ch := sql[i];
    if At(sql, i, '-', '-') {
      LineCommentAt(sql, i);
      var j := LineCommentEnd(sql, i);
      p := Comment(sql[i..j]);
    } else if At(sql, i, '/', '*') {
      BlockCommentAt(sql, i);
      var j, depth := BlockCommentEnd(sql, i);
      p := if depth > 0 then Unclosed(sql[i..]) else Comment(sql[i..j]);
    } else if ch == '\'' || ch == '"' {
      p := NextQuoted(sql, i);
    } else if ch == '$' && DollarOpenEnd(sql, i).Some? {
      p := NextDollar(sql, i);
    } else {
      CharAt(sql, i);
      p := Char(ch);
    }
  }

  /** A piece starts before the end; the next position is again a start, or the end. */
  lemma NextStart(sql: string, ps: seq<Piece>, pos: seq<nat>, k: nat)
    requires Starts(sql, ps, pos) && k <= |ps|
    ensures pos[k] < |sql| <==> k < |ps|
    ensures k < |ps| ==> ps[k] == PieceAt(sql, pos[k]) && pos[k + 1] == pos[k] + |Source(ps[k])| && pos[k] < pos[k + 1] <= |sql|
    ensures k < |ps| ==> (pos[k + 1] < |sql| <==> k + 1 < |ps|)
  {
    if k < |ps| {
      assert StartsAt(sql, ps[k], pos[k], pos[k + 1]);
      PieceFits(sql, pos[k]);
      if k + 1 < |ps| {
        assert StartsAt(sql, ps[k + 1], pos[k + 1], pos[k + 2]);
      }
    }
  }

  function Gathered(segments: seq<Segment>, code: string, p: Piece): seq<Segment> {
    if p.Literal? then segments + Flush(code) + [p.segment] else segments
  }

  function CodeAfter(code: string, p: Piece): string { if p.Literal? then "" else code + Visible(p) }

  lemma LexStep(ps: seq<Piece>, k: nat, segments: seq<Segment>, code: string, found: set<Problem>)
    requires k < |ps|
    ensures segments + Segments(ps[k..], code) == Gathered(segments, code, ps[k]) + Segments(ps[k + 1..], CodeAfter(code, ps[k]))
    ensures found + Problems(ps[k..]) == (found + ProblemsOf(ps[k])) + Problems(ps[k + 1..])
  {
    assert ps[k..] == [ps[k]] + ps[k + 1..];
    ConsStep(ps[k], ps[k + 1..], code, found);
  }

  method LexSql(sql: string) returns (segments: seq<Segment>, problems: set<Problem>)
    ensures segments == Segments(Pieces("", sql), "")
    ensures problems == Problems(Pieces("", sql))
  {
    segments, problems := [], {};
    var code := "";
    var i := 0;
    assert sql[..0] == "" && sql[0..] == sql;
    ghost var ps := Pieces("", sql);
    ghost var pos := PieceStarts(sql, 0);
    ghost var k := 0;
    NextStart(sql, ps, pos, 0);
    while i < |sql|
      invariant 0 <= k <= |ps| && i == pos[k] && Starts(sql, ps, pos)
      invariant i < |sql| <==> k < |ps|
      invariant segments + Segments(ps[k..], code) == Segments(ps, "")
      invariant problems + Problems(ps[k..]) == Problems(ps)
      decreases |sql| - i
    {
      var p := NextPiece(sql, i);
      NextStart(sql, ps, pos, k);
      LexStep(ps, k, segments, code, problems);
      problems := problems + ProblemsOf(p);
      segments, code := Gathered(segments, code, p), CodeAfter(code, p);
      i := i + |Source(p)|;
      k := k + 1;
    }
    assert ps[k..] == [];
    segments := segments + Flush(code);
  }
}
