/**
 Archive formats from the writer's side: what a format is written as, and what its pieces,
 its placeholders and the names they stand for then are, stated without the readings of
 `ArchiveFormat`.
 */
module FormatSyntax {
  import opened Wrappers
  import opened Characters
  import opened FormatLanguage
  import opened ArchiveFormat

  // ---- Braces ----------------------------------------------------------------------------------

  /** An ordinary character, a stray `}` included, or a pair of braces with what is in it. */
  datatype Source = Char(c: char) | Braced(inner: string)

  function SourceText(src: Source): string {
    match src
    case Char(c) => [c]
    case Braced(inner) => "{" + inner + "}"
  }

  function FormatText(srcs: seq<Source>): string {
    if srcs == [] then "" else SourceText(srcs[0]) + FormatText(srcs[1..])
  }

  /** With `depth` braces open, the text closes all of them and no others. */
  predicate Balanced(t: string, depth: nat) {
    if t == "" then depth == 0
    else if t[0] == '{' then Balanced(t[1..], depth + 1)
    else if t[0] == '}' then depth > 0 && Balanced(t[1..], depth - 1)
    else Balanced(t[1..], depth)
  }

  /** One of the open braces is never closed. */
  predicate StaysOpen(t: string, depth: nat) {
    if depth == 0 then false
    else if t == "" then true
    else StaysOpen(t[1..], if t[0] == '{' then depth + 1 else if t[0] == '}' then depth - 1 else depth)
  }

  /** The text without its braces. */
  function Bare(t: string): string {
    if t == "" then "" else (if t[0] == '{' || t[0] == '}' then "" else [t[0]]) + Bare(t[1..])
  }

  predicate Fine(src: Source) {
    match src
    case Char(c) => c != '{'
    case Braced(inner) => Balanced(inner, 0)
  }

  predicate WellWritten(srcs: seq<Source>) { forall k | 0 <= k < |srcs| :: Fine(srcs[k]) }

  function PieceOf(src: Source): Piece {
    match src
    case Char(c) => Text(c)
    case Braced(inner) => Placeholder(Bare(inner))
  }

  function PiecesOf(srcs: seq<Source>): seq<Piece> {
    seq(|srcs|, k requires 0 <= k < |srcs| => PieceOf(srcs[k]))
  }

  /** The pieces of a text read with `depth` braces open and `token` read so far. */
  function Read(t: string, depth: nat, token: string): seq<Piece> { Scan(t, 0, depth, token) }

  lemma {:induction false} ScanShift(format: string, i: nat, j: nat, depth: nat, token: string)
    requires i + j <= |format|
    ensures Scan(format, i + j, depth, token) == Scan(format[i..], j, depth, token)
    decreases |format| - i - j
  {
    if i + j < |format| {
      var c := format[i + j];
      assert format[i..][j] == c;
      if c == '{' {
        ScanShift(format, i, j + 1, depth + 1, if depth == 0 then "" else token);
      } else if c == '}' && depth > 0 {
        ScanShift(format, i, j + 1, depth - 1, token);
      } else {
        ScanShift(format, i, j + 1, depth, if depth > 0 then token + [c] else token);
      }
    }
  }

  /** One character further. */
  lemma ReadOn(t: string, depth: nat, token: string)
    requires t != ""
    ensures Read(t, depth, token)
         == if t[0] == '{' then Read(t[1..], depth + 1, if depth == 0 then "" else token)
            else if t[0] == '}' && depth > 0 then
              if depth == 1 then [Placeholder(token)] + Read(t[1..], 0, token) else Read(t[1..], depth - 1, token)
            else if depth > 0 then Read(t[1..], depth, token + [t[0]])
            else [Text(t[0])] + Read(t[1..], 0, token)
  {
    ScanShift(t, 1, 0, depth + 1, if depth == 0 then "" else token);
    ScanShift(t, 1, 0, 0, token);
    ScanShift(t, 1, 0, depth, token + [t[0]]);
    if depth > 1 { ScanShift(t, 1, 0, depth - 1, token); }
  }

  /** Inside braces: what is read up to the one that closes them. */
  lemma {:induction false} InnerReadBack(t: string, rest: string, depth: nat, token: string)
    requires Balanced(t, depth)
    ensures Read(t + "}" + rest, depth + 1, token)
         == [Placeholder(token + Bare(t))] + Read(rest, 0, token + Bare(t))
    decreases |t|
  {
    hide Read;
    var whole := t + "}" + rest;
    ReadOn(whole, depth + 1, token);
    if t == "" {
      assert whole[1..] == rest && token + "" == token;
    } else {
      assert whole[0] == t[0] && whole[1..] == t[1..] + "}" + rest;
      if t[0] == '{' {
        InnerReadBack(t[1..], rest, depth + 1, token);
        assert "" + Bare(t[1..]) == Bare(t[1..]);
      } else if t[0] == '}' {
        InnerReadBack(t[1..], rest, depth - 1, token);
        assert "" + Bare(t[1..]) == Bare(t[1..]);
      } else {
        InnerReadBack(t[1..], rest, depth, token + [t[0]]);
        assert token + [t[0]] + Bare(t[1..]) == token + ([t[0]] + Bare(t[1..]));
      }
    }
  }

  lemma {:induction false} OpenReadBack(t: string, depth: nat, token: string)
    requires StaysOpen(t, depth)
    ensures Read(t, depth, token) == [Unterminated]
    decreases |t|
  {
    if t != "" {
      ReadOn(t, depth, token);
      hide Read;
      OpenReadBack(t[1..], if t[0] == '{' then depth + 1 else if t[0] == '}' then depth - 1 else depth,
                   if t[0] == '{' || t[0] == '}' then token else token + [t[0]]);
    }
  }

  /** What stands at the end of a format: nothing, or a brace that is never closed. */
  predicate Ending(tail: string) { tail == "" || (tail[0] == '{' && StaysOpen(tail[1..], 1)) }

  lemma EndingReadBack(tail: string, token: string)
    requires Ending(tail)
    ensures Read(tail, 0, token) == if tail == "" then [] else [Unterminated]
  {
    if tail != "" {
      ReadOn(tail, 0, token);
      OpenReadBack(tail[1..], 1, "");
    }
  }

  lemma {:induction false} TextReadBack(srcs: seq<Source>, tail: string, token: string)
    requires WellWritten(srcs) && Ending(tail)
    ensures Read(FormatText(srcs) + tail, 0, token) == PiecesOf(srcs) + if tail == "" then [] else [Unterminated]
    decreases |srcs|
  {
    hide Read, StaysOpen, Ending, PiecesOf, FormatText, WellWritten;
    if srcs == [] {
      NothingWritten(tail);
      EndingReadBack(tail, token);
    } else {
      PiecesOfFirst(srcs);
      FormatTextFirst(srcs, tail);
      SourceReadBack(srcs[0], FormatText(srcs[1..]) + tail, token);
      TextReadBack(srcs[1..], tail, if srcs[0].Braced? then Bare(srcs[0].inner) else token);
    }
  }

  lemma NothingWritten(tail: string)
    ensures FormatText([]) + tail == tail && PiecesOf([]) == []
  {}

  lemma FormatTextFirst(srcs: seq<Source>, tail: string)
    requires srcs != []
    ensures FormatText(srcs) + tail == SourceText(srcs[0]) + (FormatText(srcs[1..]) + tail)
  {}

  lemma SourceReadBack(src: Source, rest: string, token: string)
    requires Fine(src)
    ensures Read(SourceText(src) + rest, 0, token)
         == [PieceOf(src)] + Read(rest, 0, if src.Braced? then Bare(src.inner) else token)
  {
    hide Read;
    var whole := SourceText(src) + rest;
    ReadOn(whole, 0, token);
    match src
    case Char(c) =>
      assert whole[0] == c && whole[1..] == rest;
    case Braced(inner) =>
      assert whole[0] == '{' && whole[1..] == inner + "}" + rest;
      InnerReadBack(inner, rest, 0, "");
      assert "" + Bare(inner) == Bare(inner);
  }

  lemma PiecesOfFirst(srcs: seq<Source>)
    requires srcs != [] && WellWritten(srcs)
    ensures PiecesOf(srcs) == [PieceOf(srcs[0])] + PiecesOf(srcs[1..]) && WellWritten(srcs[1..]) && Fine(srcs[0])
  {
    forall k | 0 <= k < |srcs[1..]| ensures srcs[1..][k] == srcs[k + 1] {}
  }

  /** Whatever a format is written as is read back piece by piece, to its end: characters as
      themselves, what stands between braces without the braces in it, and one last brace
      that is never closed. */
  lemma PiecesReadBack(srcs: seq<Source>, tail: string)
    requires WellWritten(srcs) && Ending(tail)
    ensures Pieces(FormatText(srcs) + tail) == PiecesOf(srcs) + if tail == "" then [] else [Unterminated]
  {
    TextReadBack(srcs, tail, "");
  }

  /** A brace that does not stay open is closed somewhere. */
  lemma {:induction false} Closes(t: string, depth: nat) returns (k: nat)
    requires !StaysOpen(t, depth + 1)
    ensures k < |t| && t[k] == '}' && Balanced(t[..k], depth)
    decreases |t|
  {
    if t[0] == '}' && depth == 0 { return 0; }
    var j := Closes(t[1..], if t[0] == '{' then depth + 1 else if t[0] == '}' then depth - 1 else depth);
    k := j + 1;
    assert t[..k][1..] == t[1..][..j] && t[..k][0] == t[0];
  }

  /** And every format is written in some such way. */
  lemma {:induction false} EveryFormatIsWritten(format: string) returns (srcs: seq<Source>, tail: string)
    ensures WellWritten(srcs) && Ending(tail) && format == FormatText(srcs) + tail
    decreases |format|
  {
    if format == "" || (format[0] == '{' && StaysOpen(format[1..], 1)) {
      srcs, tail := [], format;
      assert "" + format == format;
      return;
    }
    var first, rest := FirstWritten(format);
    hide StaysOpen, Ending, Balanced;
    var more, end := EveryFormatIsWritten(rest);
    srcs, tail := [first] + more, end;
    assert srcs[1..] == more;
    assert SourceText(first) + (FormatText(more) + tail) == SourceText(first) + FormatText(more) + tail;
  }

  lemma FirstWritten(format: string) returns (first: Source, rest: string)
    requires format != "" && !(format[0] == '{' && StaysOpen(format[1..], 1))
    ensures Fine(first) && format == SourceText(first) + rest && |rest| < |format|
  {
    if format[0] != '{' {
      first, rest := Char(format[0]), format[1..];
    } else {
      var inner := format[1..];
      var k := Closes(inner, 0);
      first, rest := Braced(inner[..k]), inner[k + 1..];
      assert inner == inner[..k] + "}" + rest && format == "{" + inner;
    }
  }

  /** And so its glob has a star for every pair of braces, and every other character. */
  lemma GlobReadBack(srcs: seq<Source>)
    requires WellWritten(srcs)
    ensures var glob := MatchText(Pieces(FormatText(srcs)));
            |glob| == |srcs| && forall k | 0 <= k < |srcs| :: glob[k] == if srcs[k].Char? then srcs[k].c else '*'
  {
    PiecesReadBack(srcs, "");
    assert FormatText(srcs) + "" == FormatText(srcs) && PiecesOf(srcs) + [] == PiecesOf(srcs);
    forall k | 0 <= k < |srcs|
      ensures MatchText(PiecesOf(srcs))[k] == if srcs[k].Char? then srcs[k].c else '*'
    {
      MatchTextAt(PiecesOf(srcs), k);
    }
  }

  // ---- The name of a placeholder -----------------------------------------------------------------

  function Lower(c: char): char { if 'A' <= c <= 'Z' then c - 'A' + 'a' else c }

  lemma {:induction false} LowerAt(s: string)
    ensures |ToLower(s)| == |s| && forall k | 0 <= k < |s| :: ToLower(s)[k] == Lower(s[k])
  {
    if s != "" {
      LowerAt(s[1..]);
      forall k | 0 <= k < |s| ensures ToLower(s)[k] == Lower(s[k]) {
        if k > 0 { assert s[1..][k - 1] == s[k]; }
      }
    }
  }

  lemma {:induction false} TrimmedAround(before: string, name: string, after: string)
    requires forall k | 0 <= k < |before| :: IsSpace(before[k])
    requires forall k | 0 <= k < |after| :: IsSpace(after[k])
    requires name != "" && !IsSpace(name[0]) && !IsSpace(name[|name| - 1])
    ensures TrimSpace(before + name + after) == name
    decreases |before| + |after|
  {
    hide IsSpace;
    var s := before + name + after;
    if before != "" {
      assert s[0] == before[0] && s[1..] == before[1..] + name + after;
      TrimmedAround(before[1..], name, after);
    } else if after != "" {
      var n := |after| - 1;
      assert s[0] == name[0] && s[|s| - 1] == after[n] && s[..|s| - 1] == before + name + after[..n];
      TrimmedAround(before, name, after[..n]);
    } else {
      assert s == name;
    }
  }

  lemma {:induction false} ColonAt(s: string, rest: string)
    requires ':' !in s
    ensures IndexOf(s + ":" + rest, ':') == Some(|s|)
    ensures IndexOf(s, ':') == None
    decreases |s|
  {
    var whole := s + ":" + rest;
    if s != "" {
      assert whole[1..] == s[1..] + ":" + rest;
      assert forall c | c in s[1..] :: c in s;
      ColonAt(s[1..], rest);
    }
  }

  /** A placeholder's name is what stands before its first colon, in lower case and without
      the white space around it; its specification is all that stands behind. */
  lemma TokenReadBack(before: string, name: string, after: string, spec: string)
    requires forall k | 0 <= k < |before| :: IsSpace(before[k])
    requires forall k | 0 <= k < |after| :: IsSpace(after[k])
    requires name != "" && !IsSpace(name[0]) && !IsSpace(name[|name| - 1]) && ':' !in name
    ensures var lower := seq(|name|, k requires 0 <= k < |name| => Lower(name[k]));
            var token := before + name + after;
            && TokenName(token) == lower && TokenSpec(token) == None
            && TokenName(token + ":" + spec) == lower && TokenSpec(token + ":" + spec) == Some(spec)
  {
    var token := before + name + after;
    assert !IsSpace(':');
    assert ':' !in token by {
      forall k | 0 <= k < |token| ensures token[k] != ':' {
        if k < |before| { assert token[k] == before[k]; }
        else if k < |before| + |name| { assert token[k] == name[k - |before|]; }
        else { assert token[k] == after[k - |before| - |name|]; }
      }
    }
    hide IsSpace;
    ColonAt(token, spec);
    TrimmedAround(before, name, after);
    LowerAt(name);
    var whole := token + ":" + spec;
    assert whole[..|token|] == token && whole[|token| + 1..] == spec;
    assert ToLower(name) == seq(|name|, k requires 0 <= k < |name| => Lower(name[k]));
  }

  // ---- What a placeholder stands for ---------------------------------------------------------------

  /** Some clock shows this text for the directive; of the year and the day of the year only
      the number of digits is looked at. */
  ghost predicate ShownBy(d: char, text: string) {
    if d == 'Y' then |text| == 4 && forall i | 0 <= i < 4 :: IsDigit(text[i])
    else if d == 'j' then |text| == 3 && forall i | 0 <= i < 3 :: IsDigit(text[i])
    else exists t :: ValidClock(t) && RenderDirective(d, t) == text
  }

  /** The directives that are modelled one by one. */
  predicate IsKnown(d: char) { d in "YyjmdHIMS" }

  /** The text is what a strftime specification can show, directive by directive. */
  ghost predicate Renders(spec: string, text: string)
    decreases |spec|
  {
    if spec == "" then text == ""
    else if spec[0] != '%' then text != "" && text[0] == spec[0] && Renders(spec[1..], text[1..])
    else if |spec| == 1 then true
    else if spec[1] == '%' then text != "" && text[0] == '%' && Renders(spec[2..], text[1..])
    else exists k ::
        0 <= k <= |text| && (IsKnown(spec[1]) ==> ShownBy(spec[1], text[..k])) && Renders(spec[2..], text[k..])
  }

  lemma WritesBoth(a: seq<FormatSegment>, b: seq<FormatSegment>, text: string)
    ensures Writes(a + b, text) <==> exists k :: 0 <= k <= |text| && Writes(a, text[..k]) && Writes(b, text[k..])
  {
    if Writes(a + b, text) { var k := WritesSplit(a, b, text); }
    if k :| 0 <= k <= |text| && Writes(a, text[..k]) && Writes(b, text[k..]) {
      WritesConcat(a, b, text[..k], text[k..]);
      assert text[..k] + text[k..] == text;
    }
  }

  lemma WritesSegment(seg: FormatSegment, text: string)
    ensures Writes([seg], text) <==> SegmentWrites(seg, text)
  {
    if SegmentWrites(seg, text) { WritesOne(seg, text); }
    if Writes([seg], text) {
      var k :| 0 <= k <= |text| && SegmentWrites(seg, text[..k]) && Writes([seg][1..], text[k..]);
      assert text[..k] == text;
    }
  }

  lemma FlushExactly(lit: string, text: string)
    ensures Writes(Flush(lit), text) <==> text == lit
  {
    FlushWrites(lit);
    if Writes(Flush(lit), text) { FlushWritten(lit, text); }
  }

  // Directives.

  function DigitValue(c: char): int { c as int - '0' as int }

  /** Two digits are what some number below 100 is padded to. */
  lemma TwoDigits(x: string) returns (v: nat)
    requires |x| == 2 && IsDigit(x[0]) && IsDigit(x[1])
    ensures v < 100 && Pad2(v) == x && v == 10 * DigitValue(x[0]) + DigitValue(x[1])
  {
    var a, b := DigitValue(x[0]), DigitValue(x[1]);
    v := 10 * a + b;
    assert v / 10 == a && v % 10 == b;
    assert DigitChar(a) == x[0] && DigitChar(b) == x[1];
  }

  lemma {:induction false} PaddedRange(lo: nat, hi: nat, x: string)
    requires hi < 100
    ensures x in PadRange(lo, hi) <==> exists v: nat :: lo <= v <= hi && Pad2(v) == x
    decreases hi + 1 - lo
  {
    hide Pad2;
    if lo <= hi {
      PaddedRange(lo + 1, hi, x);
      assert PadRange(lo, hi) == [Pad2(lo)] + PadRange(lo + 1, hi);
      if v: nat :| lo <= v <= hi && Pad2(v) == x { assert v == lo || lo + 1 <= v <= hi; }
    }
  }

  const SOME_TIME: Clock := Clock(2024, 1, 1, 0, 0, 0, 1, _ => "", "")

  /** A clock on which the directive shows this number. */
  function Showing(d: char, v: nat): Clock {
    match d
    case 'y' => SOME_TIME.(year := 2000 + v)
    case 'm' => SOME_TIME.(month := v)
    case 'd' => SOME_TIME.(day := v)
    case 'H' => SOME_TIME.(hour := v)
    case 'I' => SOME_TIME.(hour := v % 12)
    case 'M' => SOME_TIME.(minute := v)
    case 'S' => SOME_TIME.(second := v)
    case _ => SOME_TIME
  }

  lemma ShowingShows(d: char, v: nat)
    requires if d == 'y' then v < 100 else Domain(d).Some? && Domain(d).value.0 <= v <= Domain(d).value.1
    ensures ValidClock(Showing(d, v)) && RenderDirective(d, Showing(d, v)) == Pad2(v)
  {
    hide Pad2;
    if d == 'y' {
      assert (2000 + v) % 100 == v;
    } else if d == 'I' {
      if v == 12 { assert (v % 12 + 11) % 12 + 1 == v; } else { assert v % 12 == v && (v + 11) % 12 == v - 1; }
    }
  }

  lemma DirectiveExactly(d: char, x: string)
    ensures SegmentWrites(DirectiveSegment(d), x) <==> (IsKnown(d) ==> ShownBy(d, x))
  {
    if d == 'y' {
      YearExactly(x);
    } else if Domain(d).Some? {
      DomainExactly(d, x);
    }
  }

  lemma YearExactly(x: string)
    ensures SegmentWrites(DirectiveSegment('y'), x) <==> ShownBy('y', x)
  {
    hide Pad2;
    if SegmentWrites(DirectiveSegment('y'), x) {
      var v := TwoDigits(x);
      ShowingShows('y', v);
    }
    if t :| ValidClock(t) && RenderDirective('y', t) == x { DirectiveSound('y', t); }
  }

  lemma DomainExactly(d: char, x: string)
    requires Domain(d).Some?
    ensures SegmentWrites(DirectiveSegment(d), x) <==> ShownBy(d, x)
  {
    hide Pad2, PadRange, Shown, ValidClock, Showing;
    var (lo, hi) := Domain(d).value;
    PaddedRange(lo, hi, x);
    if v: nat :| lo <= v <= hi && Pad2(v) == x { ShowingShows(d, v); }
    if t :| ValidClock(t) && RenderDirective(d, t) == x { DirectiveSound(d, t); }
  }

  /** The segments of a specification write exactly the texts it can show. */
  lemma {:induction false} SpecificationExactly(spec: string, i: nat, lit: string, text: string)
    requires i <= |spec|
    ensures Writes(StrftimeFrom(spec, i, lit), text) <==> lit <= text && Renders(spec[i..], text[|lit|..])
    decreases |spec| - i
  {
    hide Writes, DirectiveSegment, ShownBy, IsKnown;
    assert i < |spec| ==> spec[i..][0] == spec[i] && spec[i..][1..] == spec[i + 1..];
    assert i + 1 < |spec| ==> spec[i..][1] == spec[i + 1] && spec[i..][2..] == spec[i + 2..];
    if i == |spec| {
      FlushExactly(lit, text);
    } else if spec[i] != '%' {
      SpecificationExactly(spec, i + 1, lit + [spec[i]], text);
    } else if i + 1 == |spec| {
      AnythingBehind(lit, text);
    } else if spec[i + 1] == '%' {
      SpecificationExactly(spec, i + 2, lit + "%", text);
    } else {
      if lit <= text {
        var rest := text[|lit|..];
        forall k | 0 <= k <= |rest|
          ensures Writes(StrftimeFrom(spec, i + 2, ""), rest[k..]) <==> Renders(spec[i + 2..], rest[k..])
        {
          SpecificationExactly(spec, i + 2, "", rest[k..]);
          assert rest[k..][0..] == rest[k..];
        }
      }
      DirectiveThen(lit, spec[i + 1], StrftimeFrom(spec, i + 2, ""), text);
    }
  }

  lemma AnythingBehind(lit: string, text: string)
    ensures Writes(Flush(lit) + [ANYTHING], text) <==> lit <= text
  {
    if Writes(Flush(lit) + [ANYTHING], text) {
      var k := WritesSplit(Flush(lit), [ANYTHING], text);
      FlushExactly(lit, text[..k]);
    }
    if lit <= text {
      FlushWrites(lit);
      WritesOne(ANYTHING, text[|lit|..]);
      WritesConcat(Flush(lit), [ANYTHING], lit, text[|lit|..]);
      assert lit + text[|lit|..] == text;
    }
  }

  ghost predicate DirectiveFirst(d: char, more: seq<FormatSegment>, rest: string) {
    exists k :: 0 <= k <= |rest| && (IsKnown(d) ==> ShownBy(d, rest[..k])) && Writes(more, rest[k..])
  }

  /** A directive behind a literal. */
  lemma DirectiveThen(lit: string, d: char, more: seq<FormatSegment>, text: string)
    ensures Writes(Flush(lit) + [DirectiveSegment(d)] + more, text) <==>
            lit <= text && DirectiveFirst(d, more, text[|lit|..])
  {
    hide Writes, DirectiveSegment, ShownBy, IsKnown, SegmentWrites;
    var front := Flush(lit) + [DirectiveSegment(d)];
    forall x ensures Writes([DirectiveSegment(d)], x) <==> (IsKnown(d) ==> ShownBy(d, x)) {
      WritesSegment(DirectiveSegment(d), x);
      DirectiveExactly(d, x);
    }
    if Writes(front + more, text) {
      var k := WritesSplit(front, more, text);
      var m := WritesSplit(Flush(lit), [DirectiveSegment(d)], text[..k]);
      FlushExactly(lit, text[..k][..m]);
      var rest := text[|lit|..];
      assert text[..k][..m] == lit && text[..k][m..] == rest[..k - m] && text[k..] == rest[k - m..];
      assert lit == text[..|lit|];
    }
    if lit <= text {
      var rest := text[|lit|..];
      if k :| 0 <= k <= |rest| && (IsKnown(d) ==> ShownBy(d, rest[..k])) && Writes(more, rest[k..]) {
        AfterLiteral(lit, [DirectiveSegment(d)], rest[..k], more, rest[k..]);
        assert text == lit + (rest[..k] + rest[k..]);
      }
    }
  }

  // The whole placeholder.

  /** The kernel's host name, or what stands before its first dot when something does. */
  predicate HostText(hostname: string, text: string) {
    || text == hostname
    || (0 < |text| < |hostname| && text == hostname[..|text|] && hostname[|text|] == '.' && '.' !in text)
  }

  lemma {:induction false} FirstDot(s: string)
    ensures var k := IndexOf(s, '.');
            if k.Some? then '.' !in s[..k.value] else '.' !in s
  {
    if s != "" && s[0] != '.' {
      FirstDot(s[1..]);
      var k := IndexOf(s[1..], '.');
      if k.Some? { assert s[..k.value + 1] == [s[0]] + s[1..][..k.value]; }
    }
  }

  lemma HostExactly(host: Host, text: string)
    requires host.hostname != ""
    ensures text in HostnameAlternatives(host) <==> HostText(host.hostname, text)
  {
    var h := host.hostname;
    FirstDot(h);
    var k := IndexOf(h, '.');
    if HostText(h, text) && text != h {
      var n := |text|;
      assert h[n] == '.' && '.' in h;
      assert k.Some?;
      forall j | 0 <= j < n ensures h[j] != '.' { assert h[j] == text[j]; }
      forall j | 0 <= j < k.value ensures h[j] != '.' { assert h[..k.value][j] == h[j]; }
    }
  }

  /** What a placeholder's segments write: the host's name or its short form, the user, what
      the timestamp's specification can show, and anything for what is not known. */
  lemma PlaceholderExactly(host: Host, token: string, text: string)
    ensures Writes(PlaceholderSegmentsOf(host, token), text) <==>
            var name := TokenName(token);
            if name == "hostname" && host.hostname != "" then HostText(host.hostname, text)
            else if (name == "user" || name == "username") && host.user != "" then text == host.user
            else if name == "now" || name == "utcnow" then
              Renders(match TokenSpec(token) case Some(spec) => spec case None => "%Y-%m-%dT%H:%M:%S", text)
            else true
  {
    var name := TokenName(token);
    if IsHostname(name) && host.hostname != "" {
      WritesSegment(OneOf(HostnameAlternatives(host)), text);
      HostExactly(host, text);
    } else if IsUser(name) && host.user != "" {
      WritesSegment(Exactly(host.user), text);
    } else if IsNow(name) {
      SpecificationExactly(NowSpec(token), 0, "", text);
      assert NowSpec(token)[0..] == NowSpec(token) && text[0..] == text;
    } else {
      WritesSegment(ANYTHING, text);
    }
  }

  // The whole format.

  /** A name is put together from what stands for each source, in order. */
  ghost predicate PutTogether(host: Host, srcs: seq<Source>, name: string) {
    if srcs == [] then name == ""
    else match srcs[0]
      case Char(c) => name != "" && name[0] == c && PutTogether(host, srcs[1..], name[1..])
      case Braced(inner) =>
        exists k :: 0 <= k <= |name| && Writes(PlaceholderSegmentsOf(host, Bare(inner)), name[..k])
          && PutTogether(host, srcs[1..], name[k..])
  }

  /** The segments of a format write exactly the names put together that way. */
  lemma {:induction false} CompiledExactly(host: Host, srcs: seq<Source>, lit: string, name: string)
    requires WellWritten(srcs)
    ensures Writes(Compile(host, PiecesOf(srcs), lit), name) <==> lit <= name && PutTogether(host, srcs, name[|lit|..])
    decreases |srcs|
  {
    hide Writes, WellWritten;
    if srcs == [] {
      assert PiecesOf(srcs) == [];
      FlushExactly(lit, name);
    } else {
      PiecesOfFirst(srcs);
      var ps, rest := PiecesOf(srcs), name[if lit <= name then |lit| else 0..];
      assert ps[0] == PieceOf(srcs[0]) && ps[1..] == PiecesOf(srcs[1..]);
      match srcs[0]
      case Char(c) =>
        CompiledExactly(host, srcs[1..], lit + [c], name);
        if lit + [c] <= name { assert name[|lit + [c]|..] == rest[1..] && rest[0] == c; }
        if lit <= name && rest != "" && rest[0] == c { assert lit + [c] == name[..|lit| + 1]; }
      case Braced(inner) =>
        var placed, more := PlaceholderSegmentsOf(host, Bare(inner)), Compile(host, ps[1..], "");
        forall k | 0 <= k <= |rest| ensures Writes(more, rest[k..]) <==> PutTogether(host, srcs[1..], rest[k..]) {
          CompiledExactly(host, srcs[1..], "", rest[k..]);
          assert rest[k..][0..] == rest[k..];
        }
        PlacedThen(lit, placed, more, name);
    }
  }

  ghost predicate PlacedFirst(placed: seq<FormatSegment>, more: seq<FormatSegment>, rest: string) {
    exists k :: 0 <= k <= |rest| && Writes(placed, rest[..k]) && Writes(more, rest[k..])
  }

  lemma PlacedThen(lit: string, placed: seq<FormatSegment>, more: seq<FormatSegment>, text: string)
    ensures Writes(Flush(lit) + placed + more, text) <==> lit <= text && PlacedFirst(placed, more, text[|lit|..])
  {
    hide Writes;
    var front := Flush(lit) + placed;
    if Writes(front + more, text) {
      var k := WritesSplit(front, more, text);
      var m := WritesSplit(Flush(lit), placed, text[..k]);
      FlushExactly(lit, text[..k][..m]);
      var rest := text[|lit|..];
      assert text[..k][..m] == lit && text[..k][m..] == rest[..k - m] && text[k..] == rest[k - m..];
      assert lit == text[..|lit|];
    }
    if lit <= text {
      var rest := text[|lit|..];
      if k :| 0 <= k <= |rest| && Writes(placed, rest[..k]) && Writes(more, rest[k..]) {
        AfterLiteral(lit, placed, rest[..k], more, rest[k..]);
        assert text == lit + (rest[..k] + rest[k..]);
      }
    }
  }

  /** So the names a format's segments write are known from its text alone. */
  lemma FormatExactly(host: Host, srcs: seq<Source>, name: string)
    requires WellWritten(srcs)
    ensures Writes(Compile(host, Pieces(FormatText(srcs)), ""), name) <==> PutTogether(host, srcs, name)
  {
    PiecesReadBack(srcs, "");
    assert FormatText(srcs) + "" == FormatText(srcs) && PiecesOf(srcs) + [] == PiecesOf(srcs);
    CompiledExactly(host, srcs, "", name);
    assert name[0..] == name;
  }
}
