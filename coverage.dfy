/**
 * The text algorithms of the line-coverage tool: an index of line starts,
 * offset-to-line lookup by binary search, the lexer that decides which lines
 * hold code, the merge of executed byte ranges, and the lines those ranges cover.
 *
 * Source text is a sequence of characters; an offset is an index into it.
 */
module Coverage {
  import opened Wrappers
  import opened Js
  import opened Seqs

  // ---------------------------------------------------------------------------
  // Line starts
  // ---------------------------------------------------------------------------

  /** The number of newline characters in `s`. */
  function Newlines(s: string): nat
    decreases |s|
  {
    if s == [] then 0 else (if s[0] == '\n' then 1 else 0) + Newlines(s[1..])
  }

  lemma {:induction false} NewlinesSnoc(s: string, c: char)
    ensures Newlines(s + [c]) == Newlines(s) + (if c == '\n' then 1 else 0)
    decreases |s|
  {
    if s == [] {
      assert [c][1..] == [];
    } else {
      assert (s + [c])[1..] == s[1..] + [c];
      NewlinesSnoc(s[1..], c);
    }
  }

  /** The start offsets of the lines of `s[..n]`: 0, then one past each newline. */
  function LineStarts(s: string, n: nat): (starts: seq<nat>)
    requires n <= |s|
    ensures |starts| >= 1 && starts[0] == 0
    decreases n
  {
    if n == 0 then [0]
    else LineStarts(s, n - 1) + (if s[n - 1] == '\n' then [n] else [])
  }

  /** The index has one entry per newline, plus the start of the first line. */
  lemma {:induction false} LineStartsLength(s: string, n: nat)
    requires n <= |s|
    ensures |LineStarts(s, n)| == 1 + Newlines(s[..n])
    decreases n
  {
    if n == 0 {
      assert s[..0] == [];
    } else {
      LineStartsLength(s, n - 1);
      assert s[..n] == s[..n - 1] + [s[n - 1]];
      NewlinesSnoc(s[..n - 1], s[n - 1]);
    }
  }

  /** The index starts at 0, every further entry is one past a newline, and it is strictly increasing. */
  lemma {:induction false} LineStartsSound(s: string, n: nat)
    requires n <= |s|
    ensures LineStarts(s, n)[0] == 0
    ensures forall k | 0 < k < |LineStarts(s, n)| ::
              1 <= LineStarts(s, n)[k] <= n && s[LineStarts(s, n)[k] - 1] == '\n'
    ensures forall a, b | 0 <= a < b < |LineStarts(s, n)| :: LineStarts(s, n)[a] < LineStarts(s, n)[b]
    decreases n
  {
    if n > 0 {
      LineStartsSound(s, n - 1);
      var p := LineStarts(s, n - 1);
      assert forall k | 0 <= k < |p| :: p[k] <= n - 1;
      if s[n - 1] == '\n' {
        assert LineStarts(s, n) == p + [n];
      } else {
        assert LineStarts(s, n) == p;
      }
    }
  }

  /** Every newline in `s[..n]` starts a line of the index. */
  lemma {:induction false} LineStartsComplete(s: string, n: nat)
    requires n <= |s|
    ensures forall i | 0 <= i < n && s[i] == '\n' :: i + 1 in LineStarts(s, n)
    decreases n
  {
    if n > 0 {
      LineStartsComplete(s, n - 1);
    }
  }

  /**
   * The index starts at 0, has one further entry per newline, each one past
   * that newline, and is strictly increasing.
   */
  lemma LineStartsShape(s: string, n: nat)
    requires n <= |s|
    ensures |LineStarts(s, n)| == 1 + Newlines(s[..n])
    ensures LineStarts(s, n)[0] == 0
    ensures forall k | 0 < k < |LineStarts(s, n)| ::
              1 <= LineStarts(s, n)[k] <= n && s[LineStarts(s, n)[k] - 1] == '\n'
    ensures forall i | 0 <= i < n && s[i] == '\n' :: i + 1 in LineStarts(s, n)
    ensures forall a, b | 0 <= a < b < |LineStarts(s, n)| :: LineStarts(s, n)[a] < LineStarts(s, n)[b]
  {
    LineStartsLength(s, n);
    LineStartsSound(s, n);
    LineStartsComplete(s, n);
  }

  /** `lineStartsOf(source)`. */
  method LineStartsOf(source: string) returns (starts: seq<nat>)
    ensures starts == LineStarts(source, |source|)
  {
    starts := [0];
    for i := 0 to |source|
      invariant starts == LineStarts(source, i)
    {
      if source[i] == '\n' {
        starts := starts + [i + 1];
      }
    }
  }

  // ---------------------------------------------------------------------------
  // Offset to line
  // ---------------------------------------------------------------------------

  predicate Sorted(xs: seq<int>)
  {
    forall a, b | 0 <= a < b < |xs| :: xs[a] <= xs[b]
  }

  /** The greatest index `L` with `xs[L] <= offset`, or 0 when there is none. */
  function LineOf(xs: seq<int>, offset: int): (line: nat)
    ensures xs == [] ==> line == 0
    ensures xs != [] ==> line < |xs|
    ensures (exists k | 0 <= k < |xs| :: xs[k] <= offset) ==>
              xs[line] <= offset && forall k | line < k < |xs| :: xs[k] > offset
    ensures (forall k | 0 <= k < |xs| :: xs[k] > offset) ==> line == 0
    decreases |xs|
  {
    if xs == [] then 0
    else if xs[|xs| - 1] <= offset then |xs| - 1
    else
      var r := LineOf(xs[..|xs| - 1], offset);
      assert forall k | 0 <= k < |xs| - 1 :: xs[..|xs| - 1][k] == xs[k];
      r
  }

  /**
   * `offsetToLine(lineStarts, offset)`: binary search for the last line
   * starting at or before `offset`; the range `[lo, hi]` shrinks every round.
   */
  method OffsetToLine(lineStarts: seq<int>, offset: int) returns (line: nat)
    requires Sorted(lineStarts)
    ensures line == LineOf(lineStarts, offset)
  {
    var lo, hi := 0, |lineStarts| - 1;
    while lo <= hi
      invariant 0 <= lo <= hi + 1 <= |lineStarts|
      invariant forall k | 0 <= k < lo :: lineStarts[k] <= offset
      invariant forall k | hi < k < |lineStarts| :: lineStarts[k] > offset
      decreases hi - lo
    {
      var mid := (lo + hi) / 2;
      if lineStarts[mid] <= offset {
        lo := mid + 1;
      } else {
        hi := mid - 1;
      }
    }
    line := if lo - 1 > 0 then lo - 1 else 0;
    var r := LineOf(lineStarts, offset);
    if lo > 0 {
      assert lineStarts[lo - 1] <= offset;
      assert r >= lo - 1;
    }
  }

  // ---------------------------------------------------------------------------
  // Code lines
  // ---------------------------------------------------------------------------

  /** JavaScript's `\s`: the white-space and line-terminator characters. */
  predicate IsSpace(c: char)
  {
    || c == '\t' || c == '\n' || c == '\U{000B}' || c == '\U{000C}' || c == '\r' || c == ' '
    || c == '\U{00A0}' || c == '\U{1680}' || ('\U{2000}' <= c <= '\U{200A}')
    || c == '\U{2028}' || c == '\U{2029}' || c == '\U{202F}' || c == '\U{205F}'
    || c == '\U{3000}' || c == '\U{FEFF}'
  }

  /** The three characters that open a string literal. */
  predicate IsQuote(c: char) { c == '"' || c == '\'' || c == '`' }

  /** A line comment or a block comment opens at `c` (a slash followed by a slash or a star). */
  predicate CommentOpens(c: char, next: Option<char>)
  {
    c == '/' && (next == Some('/') || next == Some('*'))
  }

  /** The lexer's flags: in a block comment, a line comment or a string (and its quote), code seen on the line, escape pending. */
  datatype Lexer = Lexer(inBlock: bool, inLine: bool, inStr: bool, strCh: Option<char>, sawCode: bool, escaped: bool)

  /** Outside every comment and string. */
  predicate Plain(st: Lexer) { !st.inBlock && !st.inLine && !st.inStr }

  const Initial := Lexer(false, false, false, None, false, false)

  /** One round of the lexer loop: the new flags, how many characters it consumed, and the flag it records for a finished line. */
  datatype Move = Move(st: Lexer, advance: nat, emit: Option<bool>)

  /** The loop body of `codeLineMask` on character `ch`, followed by `next` (`None` past the end). */
  function Step(st: Lexer, ch: char, next: Option<char>): (m: Move)
    ensures m.advance == 1 || (m.advance == 2 && ch != '\n' && next.Some? && next.value != '\n')
    // a line is recorded exactly at its newline, with its flag; the flag then resets
    ensures m.emit.Some? <==> ch == '\n'
    ensures ch == '\n' ==> m.emit == Some(st.sawCode) && !m.st.sawCode && !m.st.inLine && !m.st.escaped
    // block comments and strings carry across newlines
    ensures ch == '\n' ==> m.st.inBlock == st.inBlock && m.st.inStr == st.inStr && m.st.strCh == st.strCh
    // a line comment lasts until the newline
    ensures st.inLine && ch != '\n' ==> m.st == st && m.advance == 1
    // a block comment lasts until a star followed by a slash
    ensures st.inBlock && !st.inLine && !st.inStr && ch != '\n' ==>
              (m.st.inBlock <==> !(ch == '*' && next == Some('/')))
    // inside a string no comment starts, and an escaped character never closes it
    ensures st.inStr && !st.inLine ==> m.st.inBlock == st.inBlock && !m.st.inLine
    ensures st.inStr && !st.inLine && ch == '\\' && !st.escaped ==> m.st.inStr && m.st.escaped
    ensures st.inStr && !st.inLine && st.escaped && ch != '\n' ==> m.st.inStr && !m.st.escaped
    // the line's flag is set only by a character outside comments and strings that is not
    // white space, a quote or a comment opener, and once set stays set until the newline
    ensures ch != '\n' ==>
              (m.st.sawCode <==> st.sawCode || (Plain(st) && !IsSpace(ch) && !IsQuote(ch) && !CommentOpens(ch, next)))
  {
    if ch == '\n' then Move(st.(inLine := false, sawCode := false, escaped := false), 1, Some(st.sawCode))
    else if st.inLine then Move(st, 1, None)
    else if st.inStr then
      if ch == '\\' && !st.escaped then Move(st.(escaped := true), 1, None)
      else if st.strCh == Some(ch) && !st.escaped then Move(st.(inStr := false, strCh := None, escaped := false), 1, None)
      else Move(st.(escaped := false), 1, None)
    else if st.inBlock then
      if ch == '*' && next == Some('/') then Move(st.(inBlock := false), 2, None) else Move(st, 1, None)
    else if ch == '/' && next == Some('/') then Move(st.(inLine := true), 2, None)
    else if ch == '/' && next == Some('*') then Move(st.(inBlock := true), 2, None)
    else if IsQuote(ch) then Move(st.(inStr := true, strCh := Some(ch)), 1, None)
    else if !IsSpace(ch) then Move(st.(sawCode := true), 1, None)
    else Move(st, 1, None)
  }

  /** The character after position `i`, if any. */
  function NextChar(s: string, i: nat): Option<char>
  {
    if i + 1 < |s| then Some(s[i + 1]) else None
  }

  /** The flag of a last line that has no newline after it. */
  function LastLine(s: string, st: Lexer): seq<bool>
  {
    if |s| > 0 && s[|s| - 1] != '\n' then [st.sawCode] else []
  }

  /** The flags the lexer records from position `i` on, starting in state `st`. */
  function Scan(s: string, i: nat, st: Lexer): seq<bool>
    requires i <= |s|
    decreases |s| - i
  {
    if i == |s| then LastLine(s, st)
    else
      var m := Step(st, s[i], NextChar(s, i));
      (if m.emit.Some? then [m.emit.value] else []) + Scan(s, i + m.advance, m.st)
  }

  lemma ScanUnfold(s: string, i: nat, st: Lexer)
    requires i < |s|
    ensures var m := Step(st, s[i], NextChar(s, i));
      i + m.advance <= |s| &&
      Scan(s, i, st) == (if m.emit.Some? then [m.emit.value] else []) + Scan(s, i + m.advance, m.st)
  {
  }

  /** The code-line mask of a source text. */
  function MaskOf(s: string): seq<bool>
  {
    Scan(s, 0, Initial)
  }

  /** One flag per newline, plus one for a last line without a newline. */
  lemma {:induction false} ScanLength(s: string, i: nat, st: Lexer)
    requires i <= |s|
    ensures |Scan(s, i, st)| == Newlines(s[i..]) + |LastLine(s, st)|
    decreases |s| - i
  {
    if i == |s| {
      assert s[i..] == [];
    } else {
      var m := Step(st, s[i], NextChar(s, i));
      ScanLength(s, i + m.advance, m.st);
      assert s[i..][1..] == s[i + 1..];
      if m.advance == 2 {
        assert s[i + 1..][0] == s[i + 1] && s[i + 1..][1..] == s[i + 2..];
      }
      assert |LastLine(s, st)| == |LastLine(s, m.st)|;
    }
  }

  lemma MaskLength(s: string)
    ensures |MaskOf(s)| == Newlines(s) + (if |s| > 0 && s[|s| - 1] != '\n' then 1 else 0)
  {
    ScanLength(s, 0, Initial);
    assert s[0..] == s;
  }

  /**
   * `codeLineMask(source)`: one pass over the text, one flag per line, true
   * when code outside comments and strings occurs on the line.
   */
  method CodeLineMask(source: string) returns (mask: seq<bool>)
    ensures mask == MaskOf(source)
    ensures |mask| == Newlines(source) + (if |source| > 0 && source[|source| - 1] != '\n' then 1 else 0)
  {
    mask := [];
    var st := Initial;
    var i := 0;
    while i < |source|
      invariant 0 <= i <= |source|
      invariant mask + Scan(source, i, st) == MaskOf(source)
      decreases |source| - i
    {
      var ch := source[i];
      var next := if i + 1 < |source| then Some(source[i + 1]) else None;
      ScanUnfold(source, i, st);
      var m := LexChar(st, ch, next);
      ghost var mask0 := mask;
      if m.emit.Some? {
        mask := mask + [m.emit.value];
      }
      assert mask == mask0 + (if m.emit.Some? then [m.emit.value] else []);
      AppendAssoc(mask0, if m.emit.Some? then [m.emit.value] else [], Scan(source, i + m.advance, m.st));
      st := m.st;
      i := i + m.advance;
    }
    if |source| > 0 && source[|source| - 1] != '\n' {
      mask := mask + [st.sawCode];
    }
    assert mask == MaskOf(source);
    MaskLength(source);
  }

  /**
   * The body of the `codeLineMask` loop on one character: the flags after
   * it, how far the index moves, and the flag pushed when a line ends.
   */
  method LexChar(st: Lexer, ch: char, next: Option<char>) returns (m: Move)
    ensures m == Step(st, ch, next)
  {
    var inBlock, inLine, inStr, strCh := st.inBlock, st.inLine, st.inStr, st.strCh;
    var sawCodeOnLine, escaped := st.sawCode, st.escaped;
    var advance := 1;
    var emit := None;
    if ch == '\n' {
      emit := Some(sawCodeOnLine);
      inLine := false;
      sawCodeOnLine := false;
      escaped := false;
    } else if inLine {
    } else if inStr {
      if ch == '\\' && !escaped {
        escaped := true;
      } else {
        if strCh == Some(ch) && !escaped {
          inStr := false;
          strCh := None;
        }
        escaped := false;
      }
    } else if inBlock {
      if ch == '*' && next == Some('/') {
        inBlock := false;
        advance := 2;
      }
    } else if ch == '/' && next == Some('/') {
      inLine := true;
      advance := 2;
    } else if ch == '/' && next == Some('*') {
      inBlock := true;
      advance := 2;
    } else if IsQuote(ch) {
      inStr := true;
      strCh := Some(ch);
    } else if !IsSpace(ch) {
      sawCodeOnLine := true;
    }
    m := Move(Lexer(inBlock, inLine, inStr, strCh, sawCodeOnLine, escaped), advance, emit);
  }

  // ---------------------------------------------------------------------------
  // Executed ranges
  // ---------------------------------------------------------------------------

  /** A block of a function's coverage record: the offsets `[startOffset, endOffset)` and how often it ran. */
  datatype CoverageRange = CoverageRange(startOffset: int, endOffset: int, count: int)

  datatype FunctionCoverage = FunctionCoverage(ranges: seq<CoverageRange>)

  /** The half-open offset interval `[start, end)`. */
  datatype Interval = Interval(start: int, end: int)

  predicate Contains(iv: Interval, x: int) { iv.start <= x < iv.end }

  /** Offset `x` lies in one of the intervals. */
  predicate Covered(ivs: seq<Interval>, x: int)
  {
    exists iv | iv in ivs :: Contains(iv, x)
  }

  /** The intervals of the ranges of `rs` that ran at least once, in order. */
  function Kept(rs: seq<CoverageRange>): seq<Interval>
    decreases |rs|
  {
    if rs == [] then []
    else
      var r := rs[|rs| - 1];
      Kept(rs[..|rs| - 1]) + (if r.count > 0 then [Interval(r.startOffset, r.endOffset)] else [])
  }

  /** The executed intervals of all functions, function by function. */
  function Executed(fs: seq<FunctionCoverage>): seq<Interval>
    decreases |fs|
  {
    if fs == [] then [] else Executed(fs[..|fs| - 1]) + Kept(fs[|fs| - 1].ranges)
  }

  /** An interval is kept exactly when some range with a positive count has its offsets. */
  lemma {:induction false} KeptMembers(rs: seq<CoverageRange>, iv: Interval)
    ensures iv in Kept(rs) <==>
              exists k | 0 <= k < |rs| :: rs[k].count > 0 && iv == Interval(rs[k].startOffset, rs[k].endOffset)
    decreases |rs|
  {
    if rs != [] {
      var n := |rs| - 1;
      KeptMembers(rs[..n], iv);
      assert forall k | 0 <= k < n :: rs[..n][k] == rs[k];
    }
  }

  /** The executed intervals are the positive-count ranges of the functions. */
  lemma {:induction false} ExecutedMembers(fs: seq<FunctionCoverage>, iv: Interval)
    ensures iv in Executed(fs) <==>
              exists f, k | f in fs && 0 <= k < |f.ranges| ::
                f.ranges[k].count > 0 && iv == Interval(f.ranges[k].startOffset, f.ranges[k].endOffset)
    decreases |fs|
  {
    if fs != [] {
      var n := |fs| - 1;
      ExecutedMembers(fs[..n], iv);
      KeptMembers(fs[n].ranges, iv);
      assert fs == fs[..n] + [fs[n]];
    }
  }

  /** The first loop of `mergeRanges`: collect the executed intervals. */
  method Flatten(functions: seq<FunctionCoverage>) returns (ranges: seq<Interval>)
    ensures ranges == Executed(functions)
  {
    ranges := [];
    for i := 0 to |functions|
      invariant ranges == Executed(functions[..i])
    {
      var rs := functions[i].ranges;
      for j := 0 to |rs|
        invariant ranges == Executed(functions[..i]) + Kept(rs[..j])
      {
        assert rs[..j + 1][..j] == rs[..j];
        if rs[j].count > 0 {
          ranges := ranges + [Interval(rs[j].startOffset, rs[j].endOffset)];
        }
      }
      assert rs[..|rs|] == rs;
      assert functions[..i + 1][..i] == functions[..i];
    }
    assert functions[..|functions|] == functions;
  }

  // ---------------------------------------------------------------------------
  // Sorting by start
  // ---------------------------------------------------------------------------

  predicate StartsSorted(ivs: seq<Interval>)
  {
    forall a, b | 0 <= a < b < |ivs| :: ivs[a].start <= ivs[b].start
  }

  /** Places `x` after every interval of `s` starting at or before it. */
  function InsertByStart(x: Interval, s: seq<Interval>): seq<Interval>
    decreases |s|
  {
    if s == [] then [x]
    else if x.start < s[0].start then [x] + s
    else [s[0]] + InsertByStart(x, s[1..])
  }

  /** Inserting adds `x` and keeps every interval. */
  lemma {:induction false} InsertByStartPerm(x: Interval, s: seq<Interval>)
    ensures multiset(InsertByStart(x, s)) == multiset(s) + multiset{x}
    decreases |s|
  {
    if s != [] && x.start >= s[0].start {
      InsertByStartPerm(x, s[1..]);
      assert s == [s[0]] + s[1..];
    }
  }

  /** Inserting into intervals sorted by start keeps them sorted. */
  lemma {:induction false} InsertByStartSorted(x: Interval, s: seq<Interval>)
    requires StartsSorted(s)
    ensures StartsSorted(InsertByStart(x, s))
    decreases |s|
  {
    if s != [] && x.start >= s[0].start {
      var t := InsertByStart(x, s[1..]);
      InsertByStartSorted(x, s[1..]);
      InsertByStartPerm(x, s[1..]);
      forall k | 0 <= k < |t| ensures s[0].start <= t[k].start {
        assert t[k] in multiset(t);
        if t[k] != x {
          assert t[k] in multiset(s[1..]);
          var j :| 0 <= j < |s[1..]| && s[1..][j] == t[k];
          assert s[j + 1] == t[k];
        }
      }
      assert InsertByStart(x, s) == [s[0]] + t;
    }
  }

  /**
   * The array sort of `mergeRanges` by start offset; it is stable, and a
   * stable sort has only one result, which this insertion sort computes.
   */
  function SortByStart(xs: seq<Interval>): seq<Interval>
    decreases |xs|
  {
    if xs == [] then [] else InsertByStart(xs[|xs| - 1], SortByStart(xs[..|xs| - 1]))
  }

  /** The sort is a permutation whose starts never decrease. */
  lemma {:induction false} SortByStartCorrect(xs: seq<Interval>)
    ensures StartsSorted(SortByStart(xs))
    ensures multiset(SortByStart(xs)) == multiset(xs)
    decreases |xs|
  {
    if xs != [] {
      var n := |xs| - 1;
      SortByStartCorrect(xs[..n]);
      InsertByStartSorted(xs[n], SortByStart(xs[..n]));
      InsertByStartPerm(xs[n], SortByStart(xs[..n]));
      assert xs == xs[..n] + [xs[n]];
    }
  }

  // ---------------------------------------------------------------------------
  // Merging
  // ---------------------------------------------------------------------------

  /** Sorted by start, and each interval ends strictly before the next one starts. */
  predicate Separated(ivs: seq<Interval>)
  {
    && StartsSorted(ivs)
    && forall k | 0 <= k < |ivs| - 1 :: ivs[k].end < ivs[k + 1].start
  }

  /** Intervals with the same members cover the same offsets. */
  lemma SameMembersCover(a: seq<Interval>, b: seq<Interval>, x: int)
    requires multiset(a) == multiset(b)
    ensures Covered(a, x) <==> Covered(b, x)
  {
    forall iv ensures iv in a <==> iv in b {
      assert iv in a <==> iv in multiset(a);
      assert iv in b <==> iv in multiset(b);
    }
  }

  lemma CoveredSnoc(ivs: seq<Interval>, iv: Interval, x: int)
    ensures Covered(ivs + [iv], x) <==> Covered(ivs, x) || Contains(iv, x)
  {
    if Covered(ivs + [iv], x) {
      var w :| w in ivs + [iv] && Contains(w, x);
      assert w in ivs || w == iv;
    }
    if Covered(ivs, x) {
      var w :| w in ivs && Contains(w, x);
      assert w in ivs + [iv];
    }
    assert iv in ivs + [iv];
  }

  /** Widening the last interval `[a, b)` to `[a, max(b, d))` adds exactly `[c, d)` when `a <= c <= b`. */
  lemma CoveredWiden(front: seq<Interval>, last: Interval, cur: Interval, x: int)
    requires last.start <= cur.start <= last.end
    ensures Covered(front + [Interval(last.start, Max(last.end, cur.end))], x) <==>
              Covered(front + [last], x) || Contains(cur, x)
  {
    CoveredSnoc(front, Interval(last.start, Max(last.end, cur.end)), x);
    CoveredSnoc(front, last, x);
  }

  /** Some interval of `ivs` spans `iv`, endpoints included, empty `iv` too. */
  ghost predicate Encloses(ivs: seq<Interval>, iv: Interval)
  {
    exists w | w in ivs :: w.start <= iv.start && iv.end <= w.end
  }

  /** Widening the last interval keeps every interval spanned. */
  lemma EnclosesGrow(front: seq<Interval>, last: Interval, next: Interval, iv: Interval)
    requires Encloses(front + [last], iv)
    requires next.start == last.start && last.end <= next.end
    ensures Encloses(front + [next], iv)
  {
    var w :| w in front + [last] && w.start <= iv.start && iv.end <= w.end;
    if w in front {
      assert w in front + [next];
    } else {
      assert next in front + [next];
    }
  }

  /** The state of the coalescing loop after `i` sorted intervals. */
  ghost predicate MergeInv(merged: seq<Interval>, sorted: seq<Interval>, i: int)
  {
    && 1 <= i <= |sorted|
    && 1 <= |merged| <= i
    && Separated(merged)
    && (forall j | i <= j < |sorted| :: merged[|merged| - 1].start <= sorted[j].start)
    && (forall x :: Covered(merged, x) <==> Covered(sorted[..i], x))
    && (forall k | 0 <= k < i :: Encloses(merged, sorted[k]))
  }

  /** The current interval starts at or before the last one's end: widen the last one. */
  lemma WidenStep(merged: seq<Interval>, sorted: seq<Interval>, i: int)
    requires StartsSorted(sorted) && MergeInv(merged, sorted, i) && i < |sorted|
    requires sorted[i].start <= merged[|merged| - 1].end
    ensures var last := merged[|merged| - 1];
      MergeInv(merged[..|merged| - 1] + [Interval(last.start, Max(last.end, sorted[i].end))], sorted, i + 1)
  {
    var last, cur, front := merged[|merged| - 1], sorted[i], merged[..|merged| - 1];
    var next := front + [Interval(last.start, Max(last.end, cur.end))];
    assert merged == front + [last];
    assert sorted[..i + 1] == sorted[..i] + [cur];
    forall x ensures Covered(next, x) <==> Covered(sorted[..i + 1], x) {
      CoveredWiden(front, last, cur, x);
      CoveredSnoc(sorted[..i], cur, x);
    }
    var wide := Interval(last.start, Max(last.end, cur.end));
    forall k | 0 <= k < i ensures Encloses(next, sorted[k]) {
      EnclosesGrow(front, last, wide, sorted[k]);
    }
    assert wide in next;
  }

  /** The current interval starts after the last one's end: append it. */
  lemma PushStep(merged: seq<Interval>, sorted: seq<Interval>, i: int)
    requires StartsSorted(sorted) && MergeInv(merged, sorted, i) && i < |sorted|
    requires sorted[i].start > merged[|merged| - 1].end
    ensures MergeInv(merged + [sorted[i]], sorted, i + 1)
  {
    var cur := sorted[i];
    assert sorted[..i + 1] == sorted[..i] + [cur];
    forall x ensures Covered(merged + [cur], x) <==> Covered(sorted[..i + 1], x) {
      CoveredSnoc(merged, cur, x);
      CoveredSnoc(sorted[..i], cur, x);
    }
    forall k | 0 <= k < i ensures Encloses(merged + [cur], sorted[k]) {
      var w :| w in merged && w.start <= sorted[k].start && sorted[k].end <= w.end;
      assert w in merged + [cur];
    }
    assert cur in merged + [cur];
  }

  /** The coalescing loop of `mergeRanges` over intervals sorted by start. */
  method Coalesce(sorted: seq<Interval>) returns (merged: seq<Interval>)
    requires StartsSorted(sorted) && |sorted| > 0
    ensures |merged| > 0 && Separated(merged)
    ensures forall x :: Covered(merged, x) <==> Covered(sorted, x)
    ensures forall k | 0 <= k < |sorted| :: Encloses(merged, sorted[k])
  {
    merged := [sorted[0]];
    assert sorted[..1] == [sorted[0]] && sorted[0] in merged;
    for i := 1 to |sorted|
      invariant MergeInv(merged, sorted, i)
    {
      var last := merged[|merged| - 1];
      var cur := sorted[i];
      if cur.start <= last.end {
        WidenStep(merged, sorted, i);
        merged := merged[..|merged| - 1] + [Interval(last.start, Max(last.end, cur.end))];
      } else {
        PushStep(merged, sorted, i);
        merged := merged + [cur];
      }
    }
    assert sorted[..|sorted|] == sorted;
  }

  /**
   * `mergeRanges(functions)`: sort the executed intervals by start and
   * coalesce each one into the previous when it starts at or before the
   * previous one's end.
   */
  method MergeRanges(functions: seq<FunctionCoverage>) returns (merged: seq<Interval>)
    ensures merged == [] <==> Executed(functions) == []
    ensures Separated(merged)
    ensures forall x :: Covered(merged, x) <==> Covered(Executed(functions), x)
    ensures forall iv | iv in Executed(functions) :: Encloses(merged, iv)
  {
    var ranges := Flatten(functions);
    if |ranges| == 0 {
      return [];
    }
    var sorted := SortByStart(ranges);
    SortByStartCorrect(ranges);
    assert |sorted| == |multiset(sorted)| == |multiset(ranges)| == |ranges|;
    merged := Coalesce(sorted);
    forall x ensures Covered(sorted, x) <==> Covered(Executed(functions), x) {
      SameMembersCover(sorted, ranges, x);
    }
    forall iv | iv in Executed(functions) ensures Encloses(merged, iv) {
      assert iv in multiset(ranges);
      assert iv in multiset(sorted);
      var k :| 0 <= k < |sorted| && sorted[k] == iv;
    }
  }

  // ---------------------------------------------------------------------------
  // Covered lines
  // ---------------------------------------------------------------------------

  predicate Increasing(xs: seq<int>)
  {
    forall a, b | 0 <= a < b < |xs| :: xs[a] < xs[b]
  }

  lemma IncreasingAt(xs: seq<int>, a: int, b: int)
    requires Increasing(xs) && 0 <= a <= b < |xs|
    ensures xs[a] <= xs[b]
  {
  }

  /** A later offset is never on an earlier line. */
  lemma LineOfMonotone(xs: seq<int>, a: int, b: int)
    requires Sorted(xs) && a <= b
    ensures LineOf(xs, a) <= LineOf(xs, b)
  {
    if xs != [] && exists k | 0 <= k < |xs| :: xs[k] <= a {
      assert xs[LineOf(xs, a)] <= b;
    }
  }

  /** The start offset of a line lies on that line. */
  lemma LineOfStart(xs: seq<int>, L: nat)
    requires Increasing(xs) && L < |xs|
    ensures LineOf(xs, xs[L]) == L
  {
    assert xs[L] <= xs[L];
  }

  /** The first and last line an interval touches: its start and the offset before its end, both clamped at 0. */
  function StartLine(lineStarts: seq<int>, iv: Interval): nat { LineOf(lineStarts, Max(0, iv.start)) }

  function EndLine(lineStarts: seq<int>, iv: Interval): nat { LineOf(lineStarts, Max(0, iv.end - 1)) }

  /** The lines `a` through `b`. */
  function LineSpan(a: int, b: int): (r: set<int>)
    ensures forall L :: L in r <==> a <= L <= b
    decreases b - a
  {
    if a > b then {} else LineSpan(a, b - 1) + {b}
  }

  /** The lines marked for the intervals `ivs`, one span per interval. */
  function LinesOf(lineStarts: seq<int>, ivs: seq<Interval>): set<int>
    decreases |ivs|
  {
    if ivs == [] then {}
    else
      var iv := ivs[|ivs| - 1];
      LinesOf(lineStarts, ivs[..|ivs| - 1]) + LineSpan(StartLine(lineStarts, iv), EndLine(lineStarts, iv))
  }

  /** A line is marked exactly when it lies between the first and last line of some interval. */
  lemma {:induction false} LinesOfMembers(lineStarts: seq<int>, ivs: seq<Interval>, L: int)
    ensures L in LinesOf(lineStarts, ivs) <==>
              exists iv | iv in ivs :: StartLine(lineStarts, iv) <= L <= EndLine(lineStarts, iv)
    decreases |ivs|
  {
    if ivs != [] {
      var n := |ivs| - 1;
      LinesOfMembers(lineStarts, ivs[..n], L);
      assert ivs == ivs[..n] + [ivs[n]];
    }
  }

  /** The line of every covered offset is marked. */
  lemma OffsetLineMarked(lineStarts: seq<int>, ivs: seq<Interval>, x: int)
    requires Sorted(lineStarts) && 0 <= x && Covered(ivs, x)
    ensures LineOf(lineStarts, x) in LinesOf(lineStarts, ivs)
  {
    var iv :| iv in ivs && Contains(iv, x);
    LineOfMonotone(lineStarts, Max(0, iv.start), x);
    LineOfMonotone(lineStarts, x, Max(0, iv.end - 1));
    LinesOfMembers(lineStarts, ivs, LineOf(lineStarts, x));
  }

  /**
   * Conversely, with an index of line starts from 0, every line marked for
   * an interval of non-negative offsets holds one of its offsets.
   */
  lemma MarkedLineTouched(lineStarts: seq<int>, iv: Interval, L: int)
    requires Increasing(lineStarts) && |lineStarts| > 0 && lineStarts[0] == 0
    requires 0 <= iv.start < iv.end
    requires StartLine(lineStarts, iv) <= L <= EndLine(lineStarts, iv)
    ensures exists y | Contains(iv, y) :: LineOf(lineStarts, y) == L
  {
    var f, t := StartLine(lineStarts, iv), EndLine(lineStarts, iv);
    assert lineStarts[0] <= iv.start && lineStarts[0] <= iv.end - 1;
    if L == f {
      assert Contains(iv, iv.start);
    } else {
      assert lineStarts[L] > iv.start;
      assert lineStarts[t] <= iv.end - 1;
      IncreasingAt(lineStarts, L, t);
      LineOfStart(lineStarts, L);
      assert Contains(iv, lineStarts[L]);
    }
  }

  /** The inner loop of `coveredLinesFromRanges`: adds the lines `a` through `b`. */
  method MarkLines(covered: set<int>, a: int, b: int) returns (result: set<int>)
    ensures result == covered + LineSpan(a, b)
  {
    result := covered;
    var L: int := a;
    while L <= b
      invariant a <= L && (L <= b + 1 || L == a)
      invariant result == covered + LineSpan(a, L - 1)
      decreases b - L
    {
      assert LineSpan(a, L) == LineSpan(a, L - 1) + {L};
      result := result + {L};
      L := L + 1;
    }
    assert LineSpan(a, L - 1) == LineSpan(a, b);
  }

  /** `coveredLinesFromRanges(lineStarts, mergedRanges)`: the set of lines the intervals touch. */
  method CoveredLinesFromRanges(lineStarts: seq<int>, mergedRanges: seq<Interval>) returns (covered: set<int>)
    requires Sorted(lineStarts)
    ensures covered == LinesOf(lineStarts, mergedRanges)
  {
    covered := {};
    for k := 0 to |mergedRanges|
      invariant covered == LinesOf(lineStarts, mergedRanges[..k])
    {
      var iv := mergedRanges[k];
      var a := OffsetToLine(lineStarts, Max(0, iv.start));
      var b := OffsetToLine(lineStarts, Max(0, iv.end - 1));
      covered := MarkLines(covered, a, b);
      assert mergedRanges[..k + 1][..k] == mergedRanges[..k];
    }
    assert mergedRanges[..|mergedRanges|] == mergedRanges;
  }
}
