/** The string primitives of Rust's `str` that the agent relies on, over `seq<char>`:
    `lines`, `trim`, `contains`, `split_whitespace`, `split_once` and `parse::<i32>`. */
module Text {
  import opened Errors

  const I32Min: int := -0x8000_0000
  const I32Max: int := 0x7FFF_FFFF

  /** Values of Rust's `i32`. */
  type I32 = x: int | I32Min <= x <= I32Max

  // ---------------------------------------------------------------------------
  // Whitespace and trimming
  // ---------------------------------------------------------------------------

  /** The Unicode White_Space property, which Rust's `char::is_whitespace` decides. */
  predicate IsWhitespace(c: char) {
    || ('\t' <= c <= '\r')
    || c == ' '
    || c == '\U{85}'
    || c == '\U{A0}'
    || c == '\U{1680}'
    || ('\U{2000}' <= c <= '\U{200A}')
    || c == '\U{2028}'
    || c == '\U{2029}'
    || c == '\U{202F}'
    || c == '\U{205F}'
    || c == '\U{3000}'
  }

  predicate AllWhitespace(s: string) {
    forall i :: 0 <= i < |s| ==> IsWhitespace(s[i])
  }

  /** Neither end of `s` is whitespace; this is what `trim` leaves behind. */
  predicate IsTrimmed(s: string) {
    s == [] || (!IsWhitespace(s[0]) && !IsWhitespace(s[|s| - 1]))
  }

  /** Length of the run of whitespace that `s` starts with. */
  function LeadingWhitespace(s: string): (k: nat)
    ensures k <= |s|
    ensures forall j :: 0 <= j < k ==> IsWhitespace(s[j])
    ensures k < |s| ==> !IsWhitespace(s[k])
  {
    if s == [] || !IsWhitespace(s[0]) then 0 else 1 + LeadingWhitespace(s[1..])
  }

  /** Index where the run of whitespace that `s` ends with begins. */
  function TrailingWhitespace(s: string): (k: nat)
    ensures k <= |s|
    ensures forall j :: k <= j < |s| ==> IsWhitespace(s[j])
    ensures 0 < k ==> !IsWhitespace(s[k - 1])
  {
    if s == [] || !IsWhitespace(s[|s| - 1]) then |s| else TrailingWhitespace(s[..|s| - 1])
  }

  /** `str::trim_start`: the suffix left after the leading whitespace. */
  function TrimStart(s: string): string {
    s[LeadingWhitespace(s)..]
  }

  /** `str::trim`: the infix of `s` from its first to its last non-whitespace character,
      or nothing when there is none. */
  function Trim(s: string): (r: string)
    ensures IsTrimmed(r)
    ensures exists i, j :: 0 <= i <= j <= |s| && r == s[i..j] && AllWhitespace(s[..i]) && AllWhitespace(s[j..])
    ensures r == [] <==> AllWhitespace(s)
  {
    var i := LeadingWhitespace(s);
    if i == |s| then
      assert s[..i] == s && s[i..] == [];
      []
    else
      var j := TrailingWhitespace(s);
      assert !IsWhitespace(s[i]);
      assert i < j;
      assert s[i..j][0] == s[i] && s[i..j][j - i - 1] == s[j - 1];
      assert AllWhitespace(s[..i]) && AllWhitespace(s[j..]);
      s[i..j]
  }

  /** Trimming the start undoes whitespace padding in front of a string that does not
      itself start with whitespace. */
  lemma TrimStartPadding(pad: string, s: string)
    requires AllWhitespace(pad)
    requires s == [] || !IsWhitespace(s[0])
    ensures LeadingWhitespace(pad + s) == |pad|
    ensures TrimStart(pad + s) == s
  {
    var u := pad + s;
    assert forall m :: 0 <= m < |pad| ==> u[m] == pad[m];
    assert |pad| < |u| ==> u[|pad|] == s[0];
    assert LeadingWhitespace(u) == |pad|;
    assert u[|pad|..] == s;
  }

  /** Whitespace after a string that does not end with whitespace is exactly the
      trailing run. */
  lemma TrailingPadding(s: string, pad: string)
    requires AllWhitespace(pad)
    requires s == [] || !IsWhitespace(s[|s| - 1])
    ensures TrailingWhitespace(s + pad) == |s|
  {
    var u := s + pad;
    assert forall m :: |s| <= m < |u| ==> u[m] == pad[m - |s|];
    assert 0 < |s| ==> u[|s| - 1] == s[|s| - 1];
  }

  /** Trimming undoes whitespace padding around an already trimmed string; in particular
      `Trim` is the identity on trimmed strings. */
  lemma TrimPadding(left: string, s: string, right: string)
    requires AllWhitespace(left) && AllWhitespace(right) && IsTrimmed(s)
    ensures Trim(left + s + right) == s
  {
    var u := left + s + right;
    assert u == left + (s + right);
    if s == [] {
      assert AllWhitespace(u);
    } else {
      TrimStartPadding(left, s + right);
      TrailingPadding(left + s, right);
      assert u[|left|..|left| + |s|] == s;
    }
  }

  lemma TrimOfTrimmed(s: string)
    requires IsTrimmed(s)
    ensures Trim(s) == s
  {
    TrimPadding([], s, []);
    assert [] + s + [] == s;
  }

  /** Concatenation of sequences is associative. */
  lemma ConcatAssoc<T>(h: seq<T>, x: seq<T>, y: seq<T>)
    ensures (h + x) + y == h + (x + y)
  {
  }

  /** A sequence is its prefix followed by the matching suffix. */
  lemma SplitAt<T>(s: seq<T>, k: nat)
    requires k <= |s|
    ensures s == s[..k] + s[k..]
  {
  }

  // ---------------------------------------------------------------------------
  // Lines
  // ---------------------------------------------------------------------------

  /** Index of the first '\n' in `s`, or |s| when there is none. */
  function LineEnd(s: string): (k: nat)
    ensures k <= |s|
    ensures forall j :: 0 <= j < k ==> s[j] != '\n'
    ensures k < |s| ==> s[k] == '\n'
  {
    if s == [] || s[0] == '\n' then 0 else 1 + LineEnd(s[1..])
  }

  /** Drops one '\r' that stood right before a '\n' terminator. */
  function StripCarriageReturn(line: string): string {
    if line != [] && line[|line| - 1] == '\r' then line[..|line| - 1] else line
  }

  /** `str::lines`: the pieces between '\n' terminators, each without its terminator and
      without a '\r' that preceded the '\n'; a final terminator is optional, and a bare
      '\r' ending the last, unterminated line is kept. */
  function Lines(s: string): (ls: seq<string>)
    ensures forall i :: 0 <= i < |ls| ==> '\n' !in ls[i]
    ensures s == [] <==> ls == []
    decreases |s|
  {
    if s == [] then []
    else
      var k := LineEnd(s);
      if k == |s| then [s]
      else [StripCarriageReturn(s[..k])] + Lines(s[k + 1..])
  }

  /** Each line followed by a '\n' terminator, as a program printing one item per line does. */
  function Unlines(ls: seq<string>): string {
    if ls == [] then [] else ls[0] + "\n" + Unlines(ls[1..])
  }

  /** A line that `Lines` hands back unchanged when it is printed with a terminator. */
  predicate IsPlainLine(line: string) {
    '\n' !in line && (line == [] || line[|line| - 1] != '\r')
  }

  /** Splitting the text printed one-per-line gives back exactly the printed lines. */
  lemma {:induction false} LinesUnlines(ls: seq<string>)
    requires forall i :: 0 <= i < |ls| ==> IsPlainLine(ls[i])
    ensures Lines(Unlines(ls)) == ls
  {
    if ls != [] {
      var l := ls[0];
      var rest := Unlines(ls[1..]);
      var s := l + "\n" + rest;
      assert s == Unlines(ls);
      LineEndOf(l, rest);
      assert s[..|l|] == l;
      assert s[|l| + 1..] == rest;
      LinesUnlines(ls[1..]);
    }
  }

  lemma {:induction false} LineEndOf(l: string, rest: string)
    requires '\n' !in l
    ensures LineEnd(l + "\n" + rest) == |l|
    decreases |l|
  {
    if l != [] {
      assert (l + "\n" + rest)[1..] == l[1..] + "\n" + rest;
      LineEndOf(l[1..], rest);
    }
  }

  // ---------------------------------------------------------------------------
  // Substring search
  // ---------------------------------------------------------------------------

  predicate OccursAt(s: string, pattern: string, i: int) {
    0 <= i && i + |pattern| <= |s| && s[i..i + |pattern|] == pattern
  }

  /** `str::contains` with a string pattern. */
  function Contains(s: string, pattern: string): (b: bool)
    ensures b <==> exists i :: OccursAt(s, pattern, i)
    decreases |s|
  {
    if |pattern| <= |s| && s[..|pattern|] == pattern then
      assert OccursAt(s, pattern, 0);
      true
    else if s == [] then
      assert forall i :: !OccursAt(s, pattern, i);
      false
    else
      OccursShift(s, pattern);
      Contains(s[1..], pattern)
  }

  /** Past a failed match at index 0, the occurrences in `s` are those in `s[1..]`, shifted. */
  lemma OccursShift(s: string, pattern: string)
    requires s != [] && !OccursAt(s, pattern, 0)
    ensures (exists i :: OccursAt(s, pattern, i)) <==> (exists i :: OccursAt(s[1..], pattern, i))
  {
    if i :| OccursAt(s, pattern, i) {
      assert i != 0;
      TailSlice(s, i, i + |pattern|);
      assert OccursAt(s[1..], pattern, i - 1);
    }
    if i :| OccursAt(s[1..], pattern, i) {
      TailSlice(s, i + 1, i + 1 + |pattern|);
      assert OccursAt(s, pattern, i + 1);
    }
  }

  lemma TailSlice(s: string, a: int, b: int)
    requires 1 <= a <= b <= |s|
    ensures s[1..][a - 1..b - 1] == s[a..b]
  {
  }

  lemma ContainsInfix(before: string, pattern: string, after: string)
    ensures Contains(before + pattern + after, pattern)
  {
    var s := before + pattern + after;
    assert s[|before|..|before| + |pattern|] == pattern;
    assert OccursAt(s, pattern, |before|);
  }

  /** A pattern found in a text is still found after something is put in front of it. */
  lemma ContainsAfter(prefix: string, s: string, pattern: string)
    requires Contains(s, pattern)
    ensures Contains(prefix + s, pattern)
  {
    var i :| OccursAt(s, pattern, i);
    var u := prefix + s;
    assert u[|prefix| + i..|prefix| + i + |pattern|] == s[i..i + |pattern|];
    assert OccursAt(u, pattern, |prefix| + i);
  }

  // ---------------------------------------------------------------------------
  // Whitespace-separated fields
  // ---------------------------------------------------------------------------

  /** A maximal run of non-whitespace characters, as `split_whitespace` yields. */
  predicate IsField(f: string) {
    f != [] && forall i :: 0 <= i < |f| ==> !IsWhitespace(f[i])
  }

  /** Index of the first whitespace character in `s`, or |s| when there is none. */
  function FieldEnd(s: string): (k: nat)
    ensures k <= |s|
    ensures forall j :: 0 <= j < k ==> !IsWhitespace(s[j])
    ensures k < |s| ==> IsWhitespace(s[k])
  {
    if s == [] || IsWhitespace(s[0]) then 0 else 1 + FieldEnd(s[1..])
  }

  /** `str::split_whitespace`: the non-empty runs of non-whitespace characters, in order. */
  function SplitWhitespace(s: string): (fields: seq<string>)
    ensures forall i :: 0 <= i < |fields| ==> IsField(fields[i])
    decreases |s|
  {
    var t := TrimStart(s);
    if t == [] then []
    else
      var k := FieldEnd(t);
      [t[..k]] + SplitWhitespace(t[k..])
  }

  /** The gaps of a row of `n` fields in a column listing: `n + 1` runs of whitespace, one
      before each field and one after the last. A gap between two fields is never empty;
      the first and the last may be. */
  predicate IsGaps(gaps: seq<string>, n: nat) {
    && |gaps| == n + 1
    && (forall i :: 0 <= i < |gaps| ==> AllWhitespace(gaps[i]))
    && (forall i :: 0 < i < n ==> gaps[i] != [])
  }

  /** A row of a column listing: `gaps[0] + fields[0] + gaps[1] + … + fields[n-1] + gaps[n]`,
      the shape in which `ss` pads its columns with runs of spaces. */
  function Columns(fields: seq<string>, gaps: seq<string>): string
    requires |gaps| == |fields| + 1
  {
    if fields == [] then gaps[0]
    else gaps[0] + fields[0] + Columns(fields[1..], gaps[1..])
  }

  /** Splitting a padded row gives back exactly its fields, in order, whatever the padding. */
  lemma {:induction false} SplitColumns(fields: seq<string>, gaps: seq<string>)
    requires forall i :: 0 <= i < |fields| ==> IsField(fields[i])
    requires IsGaps(gaps, |fields|)
    ensures SplitWhitespace(Columns(fields, gaps)) == fields
  {
    if fields == [] {
      SplitBlank(gaps[0]);
    } else {
      var tail := fields[1..];
      var rest := Columns(tail, gaps[1..]);
      GapsTail(gaps, |fields|);
      SplitColumns(tail, gaps[1..]);
      ColumnsStart(tail, gaps[1..]);
      SplitColumnsStep(gaps[0], fields[0], rest);
      assert Columns(fields, gaps) == gaps[0] + fields[0] + rest;
      assert [fields[0]] + tail == fields;
    }
  }

  /** Conversely, every line is its `split_whitespace` fields padded by whitespace gaps, so
      the fields are exactly the line's maximal runs of non-whitespace characters. */
  lemma {:induction false} SplitWhitespaceColumns(s: string)
    ensures exists gaps :: IsGaps(gaps, |SplitWhitespace(s)|) && s == Columns(SplitWhitespace(s), gaps)
    decreases |s|
  {
    var t := TrimStart(s);
    if t == [] {
      BlankColumns(s);
    } else {
      var u := t[FieldEnd(t)..];
      SplitWhitespaceColumns(u);
      var gs :| IsGaps(gs, |SplitWhitespace(u)|) && u == Columns(SplitWhitespace(u), gs);
      ColumnsOfStep(s, gs);
      var gaps := [s[..LeadingWhitespace(s)]] + gs;
      assert IsGaps(gaps, |SplitWhitespace(s)|) && s == Columns(SplitWhitespace(s), gaps);
    }
  }

  /** A blank line is a row with no fields and one gap. */
  lemma BlankColumns(s: string)
    requires TrimStart(s) == []
    ensures IsGaps([s], |SplitWhitespace(s)|) && s == Columns(SplitWhitespace(s), [s])
  {
    assert SplitWhitespace(s) == [];
    assert LeadingWhitespace(s) == |s|;
    assert IsGaps([s], 0);
  }

  /** One step of SplitWhitespaceColumns: the leading whitespace becomes the first gap and
      the first field comes off. */
  lemma ColumnsOfStep(s: string, gs: seq<string>)
    requires TrimStart(s) != []
    requires var t := TrimStart(s);
             var u := t[FieldEnd(t)..];
             IsGaps(gs, |SplitWhitespace(u)|) && u == Columns(SplitWhitespace(u), gs)
    ensures var gaps := [s[..LeadingWhitespace(s)]] + gs;
            IsGaps(gaps, |SplitWhitespace(s)|) && s == Columns(SplitWhitespace(s), gaps)
  {
    var lead := LeadingWhitespace(s);
    var t := s[lead..];
    var k := FieldEnd(t);
    var u := t[k..];
    var rest := SplitWhitespace(u);
    assert SplitWhitespace(s) == [t[..k]] + rest by {
      SplitWhitespaceStep(s);
    }
    assert rest != [] ==> gs[0] != [] by {
      if rest != [] {
        assert u != [] && IsWhitespace(u[0]);
        ColumnsStartsWithField(rest, gs);
      }
    }
    assert IsGaps([s[..lead]] + gs, |rest| + 1) by {
      GapsCons(s[..lead], gs, |rest|);
    }
    assert s == Columns([t[..k]] + rest, [s[..lead]] + gs) by {
      ColumnsOfPieces(s, lead, k, rest, gs);
    }
  }

  /** How SplitWhitespace takes a line apart when it is not blank. */
  lemma SplitWhitespaceStep(s: string)
    requires TrimStart(s) != []
    ensures var t := TrimStart(s);
            var k := FieldEnd(t);
            && 0 < k
            && SplitWhitespace(s) == [t[..k]] + SplitWhitespace(t[k..])
  {
  }

  /** A line put back together from its leading whitespace, its first field and the rest. */
  lemma ColumnsOfPieces(s: string, lead: nat, k: nat, rest: seq<string>, gs: seq<string>)
    requires lead <= |s| && k <= |s| - lead && |gs| == |rest| + 1
    requires s[lead..][k..] == Columns(rest, gs)
    ensures s == Columns([s[lead..][..k]] + rest, [s[..lead]] + gs)
  {
    var t := s[lead..];
    SplitAt(s, lead);
    SplitAt(t, k);
    ColumnsCons(s[..lead], t[..k], rest, gs);
    ConcatAssoc(s[..lead], t[..k], t[k..]);
  }

  /** A row without a leading gap starts with its first field. */
  lemma ColumnsStartsWithField(fields: seq<string>, gaps: seq<string>)
    requires |gaps| == |fields| + 1 && fields != [] && IsField(fields[0])
    ensures gaps[0] == [] ==> Columns(fields, gaps) != [] && !IsWhitespace(Columns(fields, gaps)[0])
  {
    var f := fields[0];
    var r := Columns(fields[1..], gaps[1..]);
    assert Columns(fields, gaps) == gaps[0] + f + r;
    if gaps[0] == [] {
      assert gaps[0] + f + r == f + r;
      assert (f + r)[0] == f[0];
    }
  }

  /** A leading gap put in front of a row's gaps. */
  lemma GapsCons(g: string, gs: seq<string>, n: nat)
    requires AllWhitespace(g) && IsGaps(gs, n)
    requires n > 0 ==> gs[0] != []
    ensures IsGaps([g] + gs, n + 1)
  {
    var gaps := [g] + gs;
    forall i | 0 < i < |gaps|
      ensures AllWhitespace(gaps[i]) && (i < n + 1 ==> gaps[i] != [])
    {
      assert gaps[i] == gs[i - 1];
    }
  }

  /** A field and its leading gap put in front of a row. */
  lemma ColumnsCons(g: string, f: string, fields: seq<string>, gs: seq<string>)
    requires |gs| == |fields| + 1
    ensures Columns([f] + fields, [g] + gs) == g + f + Columns(fields, gs)
  {
    assert ([f] + fields)[1..] == fields;
    assert ([g] + gs)[1..] == gs;
  }

  /** A blank line has no fields. */
  lemma SplitBlank(g: string)
    requires AllWhitespace(g)
    ensures SplitWhitespace(g) == []
  {
    TrimStartPadding(g, []);
    assert g + [] == g;
  }

  /** One step of SplitColumns: the leading gap is skipped and the first field comes off. */
  lemma SplitColumnsStep(g: string, f: string, rest: string)
    requires AllWhitespace(g) && IsField(f)
    requires rest == [] || IsWhitespace(rest[0])
    ensures SplitWhitespace(g + f + rest) == [f] + SplitWhitespace(rest)
  {
    var t := f + rest;
    assert g + f + rest == g + t;
    assert t[0] == f[0];
    TrimStartPadding(g, t);
    FieldEndAfter(f, rest);
    assert t[..|f|] == f;
    assert t[|f|..] == rest;
  }

  /** The gaps of a row without its first field are the gaps after the first one. */
  lemma GapsTail(gaps: seq<string>, n: nat)
    requires n > 0 && IsGaps(gaps, n)
    ensures IsGaps(gaps[1..], n - 1)
    ensures n > 1 ==> gaps[1] != []
  {
    forall i | 0 <= i < |gaps[1..]|
      ensures AllWhitespace(gaps[1..][i]) && (0 < i < n - 1 ==> gaps[1..][i] != [])
    {
      assert gaps[1..][i] == gaps[i + 1];
    }
  }

  /** A padded row is empty or starts with whitespace when its leading gap is non-empty or
      it has no fields. */
  lemma ColumnsStart(fields: seq<string>, gaps: seq<string>)
    requires |gaps| == |fields| + 1 && AllWhitespace(gaps[0])
    requires fields != [] ==> gaps[0] != []
    ensures Columns(fields, gaps) == [] || IsWhitespace(Columns(fields, gaps)[0])
  {
    if fields != [] {
      assert Columns(fields, gaps)[0] == gaps[0][0];
    }
  }

  /** Every whitespace character of `s` is a space, so `s` holds no line break. */
  predicate NoBreak(s: string) {
    forall i :: 0 <= i < |s| ==> s[i] == ' ' || !IsWhitespace(s[i])
  }

  /** A row padded with spaces only is a single line: it holds no '\n' and does not end
      in '\r'. */
  lemma {:induction false} ColumnsIsPlainLine(fields: seq<string>, gaps: seq<string>)
    requires forall i :: 0 <= i < |fields| ==> IsField(fields[i])
    requires |gaps| == |fields| + 1 && forall i :: 0 <= i < |gaps| ==> NoBreak(gaps[i])
    ensures IsPlainLine(Columns(fields, gaps))
  {
    ColumnsNoBreak(fields, gaps);
    assert IsWhitespace('\n') && IsWhitespace('\r');
  }

  lemma {:induction false} ColumnsNoBreak(fields: seq<string>, gaps: seq<string>)
    requires forall i :: 0 <= i < |fields| ==> IsField(fields[i])
    requires |gaps| == |fields| + 1 && forall i :: 0 <= i < |gaps| ==> NoBreak(gaps[i])
    ensures NoBreak(Columns(fields, gaps))
  {
    if fields != [] {
      assert forall i :: 0 <= i < |gaps[1..]| ==> gaps[1..][i] == gaps[i + 1];
      ColumnsNoBreak(fields[1..], gaps[1..]);
      var rest := Columns(fields[1..], gaps[1..]);
      assert NoBreak(fields[0]);
      NoBreakAppend(gaps[0], fields[0]);
      NoBreakAppend(gaps[0] + fields[0], rest);
    }
  }

  lemma NoBreakAppend(a: string, b: string)
    requires NoBreak(a) && NoBreak(b)
    ensures NoBreak(a + b)
  {
    forall i | 0 <= i < |a + b|
      ensures (a + b)[i] == ' ' || !IsWhitespace((a + b)[i])
    {
      if i >= |a| {
        assert (a + b)[i] == b[i - |a|];
      }
    }
  }

  lemma {:induction false} FieldEndAfter(f: string, rest: string)
    requires forall i :: 0 <= i < |f| ==> !IsWhitespace(f[i])
    requires rest == [] || IsWhitespace(rest[0])
    ensures FieldEnd(f + rest) == |f|
    decreases |f|
  {
    if f != [] {
      assert (f + rest)[1..] == f[1..] + rest;
      FieldEndAfter(f[1..], rest);
    } else {
      assert f + rest == rest;
    }
  }

  // ---------------------------------------------------------------------------
  // split_once
  // ---------------------------------------------------------------------------

  /** `str::split_once` with a character separator: the text before and after the first
      occurrence of `sep`. */
  function SplitOnce(s: string, sep: char): (r: Option<(string, string)>)
    ensures r.None? <==> sep !in s
    ensures r.Some? ==> s == r.value.0 + [sep] + r.value.1 && sep !in r.value.0
  {
    if s == [] then None
    else if s[0] == sep then Some(([], s[1..]))
    else
      match SplitOnce(s[1..], sep)
      case None => None
      case Some((before, after)) =>
        assert s == [s[0]] + s[1..];
        Some(([s[0]] + before, after))
  }

  // ---------------------------------------------------------------------------
  // parse::<i32>
  // ---------------------------------------------------------------------------

  predicate IsDigit(c: char) {
    '0' <= c <= '9'
  }

  predicate AllDigits(s: string) {
    forall i :: 0 <= i < |s| ==> IsDigit(s[i])
  }

  function DigitValue(c: char): nat
    requires IsDigit(c)
  {
    c as int - '0' as int
  }

  /** The value of a decimal numeral, most significant digit first. */
  function DigitsValue(s: string): nat
    requires AllDigits(s)
  {
    if s == [] then 0 else DigitsValue(s[..|s| - 1]) * 10 + DigitValue(s[|s| - 1])
  }

  /** `str::parse::<i32>`: an optional '+' or '-', then one or more ASCII digits
      (leading zeros allowed, nothing else, not even whitespace), whose value must fit. */
  function ParseI32(s: string): (r: Option<I32>)
    ensures r.Some? ==> s != [] && (IsDigit(s[0]) || s[0] == '+' || s[0] == '-')
    ensures r.Some? ==> forall i :: 0 < i < |s| ==> IsDigit(s[i])
    ensures r.Some? && r.value < 0 ==> s[0] == '-'
  {
    if s == [] then None
    else
      var negative := s[0] == '-';
      var digits := if s[0] == '-' || s[0] == '+' then s[1..] else s;
      if digits == [] || !AllDigits(digits) then None
      else
        var magnitude: int := DigitsValue(digits);
        var v := if negative then -magnitude else magnitude;
        if I32Min <= v <= I32Max then Some(v) else None
  }

  /** The shortest decimal numeral of `n`, as `to_string` prints it. */
  function FormatNat(n: nat): (s: string)
    ensures s != [] && AllDigits(s)
  {
    var d := ['0' + ((n % 10) as char)];
    if n < 10 then d else FormatNat(n / 10) + d
  }

  lemma {:induction false} DigitsValueFormatNat(n: nat)
    ensures DigitsValue(FormatNat(n)) == n
  {
    var s := FormatNat(n);
    if n >= 10 {
      DigitsValueFormatNat(n / 10);
      assert s[..|s| - 1] == FormatNat(n / 10);
    }
  }

  /** Parsing a printed non-negative value, or one printed with a leading '-', gives the value back. */
  lemma ParseI32FormatNat(n: nat)
    ensures n <= I32Max ==> ParseI32(FormatNat(n)) == Some(n)
    ensures n <= -I32Min ==> ParseI32("-" + FormatNat(n)) == Some(-(n as int))
  {
    DigitsValueFormatNat(n);
    var s := FormatNat(n);
    assert IsDigit(s[0]);
    assert ("-" + s)[1..] == s;
  }

  /** A numeral that does not fit in an `i32` is rejected rather than wrapped. */
  lemma ParseI32RejectsOverflow(n: nat)
    requires n > I32Max
    ensures ParseI32(FormatNat(n)) == None
  {
    DigitsValueFormatNat(n);
    assert IsDigit(FormatNat(n)[0]);
  }
}
