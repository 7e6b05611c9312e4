/**
 Archive name formats: how they are read, the segments and the glob derived from them, and
 the names borg writes for them. `{group}` has already been substituted, so every
 placeholder left is one of borg's own.
 */
module ArchiveFormat {
  import opened Characters
  import opened Wrappers
  import opened Glob
  import opened FormatLanguage

  // ---- Reading a format ----------------------------------------------------------------

  /** A format is ordinary characters and placeholders; a last `{` may never be closed. */
  datatype Piece = Text(c: char) | Placeholder(token: string) | Unterminated

  /** The pieces from i on, inside `depth` open braces with `token` read so far. Braces
      inside a placeholder are dropped from its token; a stray `}` is an ordinary
      character. */
  function Scan(format: string, i: nat, depth: nat, token: string): (ps: seq<Piece>)
    requires i <= |format|
    ensures depth > 0 ==> ps != [] && !ps[0].Text?
    decreases |format| - i
  {
    if i == |format| then if depth > 0 then [Unterminated] else []
    else if format[i] == '{' then Scan(format, i + 1, depth + 1, if depth == 0 then "" else token)
    else if format[i] == '}' && depth > 0 then
      if depth == 1 then [Placeholder(token)] + Scan(format, i + 1, 0, token)
      else Scan(format, i + 1, depth - 1, token)
    else if depth > 0 then Scan(format, i + 1, depth, token + [format[i]])
    else [Text(format[i])] + Scan(format, i + 1, 0, token)
  }

  function Pieces(format: string): seq<Piece> { Scan(format, 0, 0, "") }

  // ---- The group's own glob --------------------------------------------------------------

  function MatchText(ps: seq<Piece>): (s: string)
    ensures |s| == |ps|
  {
    if ps == [] then ""
    else [if ps[0].Text? then ps[0].c else '*'] + MatchText(ps[1..])
  }

  /** The match pattern of a format: its text with every placeholder a wildcard. */
  method ArchiveMatchPattern(format: string) returns (b: string)
    ensures b == MatchText(Pieces(format))
  {
    b := "";
    var depth := 0;
    ghost var token := "";
    for i := 0 to |format|
      invariant depth >= 0
      invariant depth == 0 ==> b + MatchText(Scan(format, i, 0, token)) == MatchText(Pieces(format))
      invariant depth > 0 ==> b + MatchText(Scan(format, i, depth, token))[1..] == MatchText(Pieces(format))
    {
      var r := format[i];
      ghost var was := MatchText(Scan(format, i, depth, token));
      if r == '{' {
        if depth == 0 {
          b := b + "*";
          token := "";
          assert was == "*" + was[1..];
        }
        depth := depth + 1;
      } else if r == '}' && depth > 0 {
        depth := depth - 1;
      } else if depth == 0 {
        b := b + [r];
      } else {
        token := token + [r];
      }
    }
  }

  // ---- Dates -----------------------------------------------------------------------------

  function DigitChar(n: nat): (c: char)
    requires n < 10
    ensures IsDigit(c) && c as int - '0' as int == n
  {
    "0123456789"[n]
  }

  function Pad2(v: nat): (s: string)
    requires v < 100
    ensures |s| == 2 && IsDigit(s[0]) && IsDigit(s[1])
    ensures 10 * (s[0] as int - '0' as int) + (s[1] as int - '0' as int) == v
  {
    [DigitChar(v / 10), DigitChar(v % 10)]
  }

  function Pad3(v: nat): (s: string)
    requires v < 1000
    ensures |s| == 3 && forall i :: 0 <= i < 3 ==> IsDigit(s[i])
  {
    [DigitChar(v / 100)] + Pad2(v % 100)
  }

  function Pad4(v: nat): (s: string)
    requires v < 10000
    ensures |s| == 4 && forall i :: 0 <= i < 4 ==> IsDigit(s[i])
  {
    Pad2(v / 100) + Pad2(v % 100)
  }

  /** Every two-digit value from lo to hi. */
  function PadRange(lo: nat, hi: nat): (vs: seq<string>)
    requires hi < 100
    ensures forall v :: lo <= v <= hi ==> Pad2(v) in vs
    decreases hi + 1 - lo
  {
    if lo > hi then [] else [Pad2(lo)] + PadRange(lo + 1, hi)
  }

  function Exactly(text: string): FormatSegment { FormatSegment([text], 0, false) }
  function OneOf(alts: seq<string>): FormatSegment { FormatSegment(alts, 0, false) }
  function Digits(n: nat): FormatSegment { FormatSegment([], n, false) }

  /** How many digits the open-ended directives render. */
  function DigitRun(d: char): (n: nat) {
    match d
    case 'Y' => 4
    case 'y' => 2
    case 'j' => 3
    case _ => 0
  }

  /** The two-digit values the bounded directives render. */
  function Domain(d: char): (r: Option<(nat, nat)>)
    ensures r.Some? ==> r.value.0 <= r.value.1 < 100
  {
    match d
    case 'm' => Some((1, 12))
    case 'd' => Some((1, 31))
    case 'H' => Some((0, 23))
    case 'I' => Some((1, 12))
    case 'M' => Some((0, 59))
    case 'S' => Some((0, 59))
    case _ => None
  }

  /** What a strftime directive can render: a digit run, a whole domain, or anything for
      the rest, the locale-dependent names included. */
  function DirectiveSegment(d: char): FormatSegment {
    if DigitRun(d) > 0 then Digits(DigitRun(d))
    else match Domain(d)
      case Some((lo, hi)) => OneOf(PadRange(lo, hi))
      case None => ANYTHING
  }

  function Flush(lit: string): seq<FormatSegment> { if lit == "" then [] else [Exactly(lit)] }

  function StrftimeFrom(spec: string, i: nat, lit: string): seq<FormatSegment>
    requires i <= |spec|
    decreases |spec| - i
  {
    if i == |spec| then Flush(lit)
    else if spec[i] != '%' then StrftimeFrom(spec, i + 1, lit + [spec[i]])
    else if i + 1 == |spec| then Flush(lit) + [ANYTHING]
    else if spec[i + 1] == '%' then StrftimeFrom(spec, i + 2, lit + "%")
    else Flush(lit) + [DirectiveSegment(spec[i + 1])] + StrftimeFrom(spec, i + 2, "")
  }

  method StrftimeSegments(spec: string) returns (out: seq<FormatSegment>)
    ensures out == StrftimeFrom(spec, 0, "")
  {
    out := [];
    var lit := "";
    var i := 0;
    while i < |spec|
      invariant 0 <= i <= |spec|
      invariant out + StrftimeFrom(spec, i, lit) == StrftimeFrom(spec, 0, "")
    {
      if spec[i] != '%' {
        lit := lit + [spec[i]];
        i := i + 1;
        continue;
      }
      i := i + 1;
      if i >= |spec| {
        out := out + Flush(lit);
        return out + [ANYTHING];
      }
      if spec[i] == '%' {
        lit := lit + "%";
        i := i + 1;
        continue;
      }
      ghost var rest := StrftimeFrom(spec, i + 1, "");
      assert out + (Flush(lit) + [DirectiveSegment(spec[i])] + rest)
          == out + Flush(lit) + [DirectiveSegment(spec[i])] + rest;
      out := out + Flush(lit);
      lit := "";
      out := out + [DirectiveSegment(spec[i])];
      i := i + 1;
    }
    out := out + Flush(lit);
  }

  // ---- Placeholders ------------------------------------------------------------------------

  /** What the generating process knows: the kernel's host name and $USER, "" when unset. */
  datatype Host = Host(hostname: string, user: string)

  function IndexOf(s: string, c: char): (r: Option<nat>)
    ensures r.Some? ==> r.value < |s| && s[r.value] == c
  {
    if s == "" then None
    else if s[0] == c then Some(0)
    else match IndexOf(s[1..], c) case None => None case Some(k) => Some(k + 1)
  }

  predicate IsSpace(c: char) {
    c in "\t\n\U{0B}\U{0C}\r \U{85}\U{A0}\U{1680}\U{2028}\U{2029}\U{202F}\U{205F}\U{3000}"
    || '\U{2000}' <= c <= '\U{200A}'
  }

  function TrimSpace(s: string): string
    decreases |s|
  {
    if s != "" && IsSpace(s[0]) then TrimSpace(s[1..])
    else if s != "" && IsSpace(s[|s| - 1]) then TrimSpace(s[..|s| - 1])
    else s
  }

  function ToLower(s: string): string {
    if s == "" then ""
    else [if 'A' <= s[0] <= 'Z' then s[0] - 'A' + 'a' else s[0]] + ToLower(s[1..])
  }

  function HostnameAlternatives(host: Host): seq<string> {
    if host.hostname == "" then []
    else match IndexOf(host.hostname, '.')
      case Some(k) => if k > 0 then [host.hostname, host.hostname[..k]] else [host.hostname]
      case None => [host.hostname]
  }

  function TokenName(token: string): string {
    ToLower(TrimSpace(match IndexOf(token, ':') case Some(k) => token[..k] case None => token))
  }

  function TokenSpec(token: string): Option<string> {
    match IndexOf(token, ':') case Some(k) => Some(token[k + 1..]) case None => None
  }

  const DEFAULT_NOW: string := "%Y-%m-%dT%H:%M:%S"

  function NowSpec(token: string): string {
    match TokenSpec(token) case Some(s) => s case None => DEFAULT_NOW
  }

  predicate IsHostname(name: string) { name == "hostname" }
  predicate IsUser(name: string) { name == "user" || name == "username" }
  predicate IsNow(name: string) { name == "now" || name == "utcnow" }

  function PlaceholderSegmentsOf(host: Host, token: string): seq<FormatSegment> {
    var name := TokenName(token);
    if IsHostname(name) && HostnameAlternatives(host) != [] then [OneOf(HostnameAlternatives(host))]
    else if IsUser(name) && host.user != "" then [Exactly(host.user)]
    else if IsNow(name) then StrftimeFrom(NowSpec(token), 0, "")
    else [ANYTHING]
  }

  method PlaceholderSegments(host: Host, token: string) returns (out: seq<FormatSegment>)
    ensures out == PlaceholderSegmentsOf(host, token)
  {
    var name, spec := TokenName(token), TokenSpec(token);
    if IsHostname(name) {
      var alts := HostnameAlternatives(host);
      if |alts| > 0 { return [OneOf(alts)]; }
    } else if IsUser(name) {
      if host.user != "" { return [Exactly(host.user)]; }
    } else if IsNow(name) {
      out := StrftimeSegments(match spec case Some(s) => s case None => DEFAULT_NOW);
      return;
    }
    return [ANYTHING];
  }

  /** The segments of the pieces, with `lit` already read and not yet flushed. */
  function Compile(host: Host, ps: seq<Piece>, lit: string): seq<FormatSegment>
    decreases |ps|
  {
    if ps == [] then Flush(lit)
    else match ps[0]
      case Text(c) => Compile(host, ps[1..], lit + [c])
      case Placeholder(token) => Flush(lit) + PlaceholderSegmentsOf(host, token) + Compile(host, ps[1..], "")
      case Unterminated => Compile(host, ps[1..], lit)
  }

  /** Decomposes a format into what each position can write. */
  method ArchiveFormatSegments(host: Host, format: string) returns (out: seq<FormatSegment>)
    ensures out == Compile(host, Pieces(format), "")
  {
    out := [];
    var lit := "";
    var depth := 0;
    var token := "";
    for i := 0 to |format|
      invariant depth >= 0
      invariant out + Compile(host, Scan(format, i, depth, token), lit) == Compile(host, Pieces(format), "")
    {
      var r := format[i];
      if r == '{' {
        depth := depth + 1;
        if depth == 1 { token := ""; }
      } else if r == '}' && depth > 0 {
        depth := depth - 1;
        if depth == 0 {
          var placeholder := PlaceholderSegments(host, token);
          ghost var rest := Compile(host, Scan(format, i + 1, 0, token), "");
          assert Compile(host, Scan(format, i, 1, token), lit) == Flush(lit) + placeholder + rest by {
            assert ([Placeholder(token)] + Scan(format, i + 1, 0, token))[1..] == Scan(format, i + 1, 0, token);
          }
          assert out + (Flush(lit) + placeholder + rest) == out + Flush(lit) + placeholder + rest;
          out := out + Flush(lit);
          lit := "";
          out := out + placeholder;
        }
      } else if depth > 0 {
        token := token + [r];
      } else {
        assert ([Text(r)] + Scan(format, i + 1, 0, token))[1..] == Scan(format, i + 1, 0, token);
        lit := lit + [r];
      }
    }
    assert Compile(host, Scan(format, |format|, depth, token), lit) == Flush(lit) by {
      assert [Unterminated][1..] == [];
    }
    out := out + Flush(lit);
  }

  // ---- The names borg writes -----------------------------------------------------------------

  /** A broken-down time. `other` renders every directive not modelled one by one, the
      locale-dependent names among them; `dangling` is whatever a last lone % becomes. */
  datatype Clock = Clock(year: nat, month: nat, day: nat, hour: nat, minute: nat, second: nat, yday: nat,
                         other: char -> string, dangling: string)

  predicate ValidClock(t: Clock) {
    1000 <= t.year <= 9999 && 1 <= t.month <= 12 && 1 <= t.day <= 31 && t.hour <= 23
    && t.minute <= 59 && t.second <= 59 && 1 <= t.yday <= 366
  }

  /** The number a bounded directive shows; %I is the hour on a twelve-hour face. */
  function Shown(d: char, t: Clock): (v: nat)
    requires ValidClock(t)
    ensures v < 100
    ensures Domain(d).Some? ==> Domain(d).value.0 <= v <= Domain(d).value.1
  {
    match d
    case 'm' => t.month
    case 'd' => t.day
    case 'H' => t.hour
    case 'I' => (t.hour + 11) % 12 + 1
    case 'M' => t.minute
    case 'S' => t.second
    case _ => 0
  }

  function RenderDirective(d: char, t: Clock): string
    requires ValidClock(t)
  {
    match d
    case 'Y' => Pad4(t.year)
    case 'y' => Pad2(t.year % 100)
    case 'j' => Pad3(t.yday)
    case _ => if Domain(d).Some? then Pad2(Shown(d, t)) else t.other(d)
  }

  function Render(spec: string, i: nat, t: Clock): string
    requires i <= |spec| && ValidClock(t)
    decreases |spec| - i
  {
    if i == |spec| then ""
    else if spec[i] != '%' then [spec[i]] + Render(spec, i + 1, t)
    else if i + 1 == |spec| then t.dangling
    else if spec[i + 1] == '%' then "%" + Render(spec, i + 2, t)
    else RenderDirective(spec[i + 1], t) + Render(spec, i + 2, t)
  }

  /** One run of borg: its own idea of host and user, the two clocks it reads, and what it
      substitutes for any placeholder this model does not know. */
  datatype Env = Env(hostname: string, user: string, now: Clock, utcnow: Clock, other: string -> string)

  /** The run happens on the host the generator looked at: borg reports the kernel's host
      name or its short form, and the same user. */
  ghost predicate RunsOn(env: Env, host: Host) {
    && ValidClock(env.now) && ValidClock(env.utcnow)
    && (host.hostname != "" ==> env.hostname in HostnameAlternatives(host))
    && (host.user != "" ==> env.user == host.user)
  }

  function ExpandToken(env: Env, token: string): string
    requires ValidClock(env.now) && ValidClock(env.utcnow)
  {
    var name := TokenName(token);
    if IsHostname(name) then env.hostname
    else if IsUser(name) then env.user
    else if name == "now" then Render(NowSpec(token), 0, env.now)
    else if name == "utcnow" then Render(NowSpec(token), 0, env.utcnow)
    else env.other(token)
  }

  /** The archive name a run writes. A format with an unclosed brace is one borg rejects;
      what was written before it is all there could be. */
  function Expand(env: Env, ps: seq<Piece>): string
    requires ValidClock(env.now) && ValidClock(env.utcnow)
  {
    if ps == [] then ""
    else
      (match ps[0]
       case Text(c) => [c]
       case Placeholder(token) => ExpandToken(env, token)
       case Unterminated => "")
      + Expand(env, ps[1..])
  }

  // ---- Every written name is generated by the segments ---------------------------------------

  lemma {:induction false} WritesConcat(a: seq<FormatSegment>, b: seq<FormatSegment>, x: string, y: string)
    requires Writes(a, x) && Writes(b, y)
    ensures Writes(a + b, x + y)
  {
    if a == [] {
      assert a + b == b && x + y == y;
    } else {
      var k :| 0 <= k <= |x| && SegmentWrites(a[0], x[..k]) && Writes(a[1..], x[k..]);
      WritesConcat(a[1..], b, x[k..], y);
      assert (a + b)[1..] == a[1..] + b;
      assert (x + y)[..k] == x[..k] && (x + y)[k..] == x[k..] + y;
    }
  }

  lemma WritesOne(seg: FormatSegment, text: string)
    requires SegmentWrites(seg, text)
    ensures Writes([seg], text)
  {
    assert text[..|text|] == text && text[|text|..] == "" && [seg][1..] == [];
    assert Writes([seg][1..], text[|text|..]);
  }

  lemma FlushWrites(lit: string)
    ensures Writes(Flush(lit), lit)
  {
    if lit != "" { WritesOne(Exactly(lit), lit); }
  }

  lemma DirectiveSound(d: char, t: Clock)
    requires ValidClock(t)
    ensures SegmentWrites(DirectiveSegment(d), RenderDirective(d, t))
  {}

  lemma AfterLiteral(lit: string, a: seq<FormatSegment>, x: string, b: seq<FormatSegment>, y: string)
    requires Writes(a, x) && Writes(b, y)
    ensures Writes(Flush(lit) + a + b, lit + (x + y))
  {
    FlushWrites(lit);
    WritesConcat(Flush(lit), a, lit, x);
    WritesConcat(Flush(lit) + a, b, lit + x, y);
    assert lit + x + y == lit + (x + y);
  }

  lemma {:induction false} StrftimeSound(spec: string, i: nat, lit: string, t: Clock)
    requires i <= |spec| && ValidClock(t)
    ensures Writes(StrftimeFrom(spec, i, lit), lit + Render(spec, i, t))
    decreases |spec| - i
  {
    hide Writes, RenderDirective, DirectiveSegment;
    if i == |spec| {
      FlushWrites(lit);
      assert lit + "" == lit;
    } else if spec[i] != '%' {
      StrftimeSound(spec, i + 1, lit + [spec[i]], t);
      assert lit + [spec[i]] + Render(spec, i + 1, t) == lit + ([spec[i]] + Render(spec, i + 1, t));
    } else if i + 1 == |spec| {
      FlushWrites(lit);
      WritesOne(ANYTHING, t.dangling);
      WritesConcat(Flush(lit), [ANYTHING], lit, t.dangling);
    } else if spec[i + 1] == '%' {
      StrftimeSound(spec, i + 2, lit + "%", t);
      assert lit + "%" + Render(spec, i + 2, t) == lit + ("%" + Render(spec, i + 2, t));
    } else {
      StrftimeDirective(spec, i, lit, t);
    }
  }

  lemma {:induction false} StrftimeDirective(spec: string, i: nat, lit: string, t: Clock)
    requires i + 1 < |spec| && ValidClock(t) && spec[i] == '%' && spec[i + 1] != '%'
    ensures Writes(StrftimeFrom(spec, i, lit), lit + Render(spec, i, t))
    decreases |spec| - i, 0
  {
    var d, rest := RenderDirective(spec[i + 1], t), Render(spec, i + 2, t);
    DirectiveSound(spec[i + 1], t);
    WritesOne(DirectiveSegment(spec[i + 1]), d);
    StrftimeSound(spec, i + 2, "", t);
    assert "" + rest == rest;
    AfterLiteral(lit, [DirectiveSegment(spec[i + 1])], d, StrftimeFrom(spec, i + 2, ""), rest);
  }

  lemma PlaceholderSound(host: Host, env: Env, token: string)
    requires RunsOn(env, host)
    ensures Writes(PlaceholderSegmentsOf(host, token), ExpandToken(env, token))
  {
    var name, text := TokenName(token), ExpandToken(env, token);
    if IsHostname(name) && HostnameAlternatives(host) != [] {
      WritesOne(OneOf(HostnameAlternatives(host)), text);
    } else if IsUser(name) && host.user != "" {
      WritesOne(Exactly(host.user), text);
    } else if IsNow(name) {
      var t := if name == "now" then env.now else env.utcnow;
      StrftimeSound(NowSpec(token), 0, "", t);
      assert "" + text == text;
    } else {
      WritesOne(ANYTHING, text);
    }
  }

  lemma {:induction false} CompileSound(host: Host, env: Env, ps: seq<Piece>, lit: string)
    requires RunsOn(env, host)
    ensures Writes(Compile(host, ps, lit), lit + Expand(env, ps))
    decreases |ps|
  {
    if ps == [] {
      FlushWrites(lit);
      assert lit + "" == lit;
    } else {
      var rest := Expand(env, ps[1..]);
      match ps[0]
      case Text(c) =>
        CompileSound(host, env, ps[1..], lit + [c]);
        assert lit + [c] + rest == lit + ([c] + rest);
      case Placeholder(token) =>
        CompilePlaceholder(host, env, ps, token, lit);
      case Unterminated =>
        CompileSound(host, env, ps[1..], lit);
        assert "" + rest == rest;
    }
  }

  lemma {:induction false} CompilePlaceholder(host: Host, env: Env, ps: seq<Piece>, token: string, lit: string)
    requires RunsOn(env, host) && ps != [] && ps[0] == Placeholder(token)
    ensures Writes(Compile(host, ps, lit), lit + Expand(env, ps))
    decreases |ps|, 0
  {
    var placed, text := PlaceholderSegmentsOf(host, token), ExpandToken(env, token);
    var rest := Expand(env, ps[1..]);
    PlaceholderSound(host, env, token);
    CompileSound(host, env, ps[1..], "");
    assert "" + rest == rest;
    AfterLiteral(lit, placed, text, Compile(host, ps[1..], ""), rest);
    assert Compile(host, ps, lit) == Flush(lit) + placed + Compile(host, ps[1..], "");
    assert Expand(env, ps) == text + rest;
  }

  /** The segments miss nothing: whatever name a run on this host writes, the segments
      derived from its format generate. */
  lemma EveryWrittenNameIsGenerated(host: Host, env: Env, format: string)
    requires RunsOn(env, host)
    ensures Writes(Compile(host, Pieces(format), ""), Expand(env, Pieces(format)))
  {
    CompileSound(host, env, Pieces(format), "");
    assert "" + Expand(env, Pieces(format)) == Expand(env, Pieces(format));
  }

  // ---- A group's glob covers its own archives ------------------------------------------------

  /** The name agrees with the pieces' text, whatever stands for the placeholders. */
  ghost predicate Loose(ps: seq<Piece>, name: string) {
    if ps == [] then name == ""
    else match ps[0]
      case Text(c) => name != "" && name[0] == c && Loose(ps[1..], name[1..])
      case Placeholder(_) => exists k :: 0 <= k <= |name| && Loose(ps[1..], name[k..])
      case Unterminated => Loose(ps[1..], name)
  }

  lemma {:induction false} WritesSplit(a: seq<FormatSegment>, b: seq<FormatSegment>, name: string) returns (k: nat)
    requires Writes(a + b, name)
    ensures k <= |name| && Writes(a, name[..k]) && Writes(b, name[k..])
  {
    hide SegmentWrites;
    if a == [] {
      k := 0;
      assert a + b == b && name[0..] == name;
    } else {
      var j :| 0 <= j <= |name| && SegmentWrites((a + b)[0], name[..j]) && Writes((a + b)[1..], name[j..]);
      assert (a + b)[1..] == a[1..] + b;
      var m := WritesSplit(a[1..], b, name[j..]);
      k := j + m;
      assert name[..k][..j] == name[..j] && name[..k][j..] == name[j..][..m];
      assert name[j..][m..] == name[k..];
    }
  }

  lemma FlushWritten(lit: string, text: string)
    requires Writes(Flush(lit), text)
    ensures text == lit
  {
    if lit != "" {
      var k :| 0 <= k <= |text| && SegmentWrites(Exactly(lit), text[..k]) && Writes(Flush(lit)[1..], text[k..]);
      assert text[..k] == lit && text[k..] == "";
      assert text == text[..k] + text[k..];
    }
  }

  lemma {:induction false} GeneratedIsLoose(host: Host, ps: seq<Piece>, lit: string, name: string)
    requires Writes(Compile(host, ps, lit), name)
    ensures lit <= name && Loose(ps, name[|lit|..])
    decreases |ps|
  {
    if ps == [] {
      FlushWritten(lit, name);
    } else {
      match ps[0]
      case Text(c) =>
        GeneratedIsLoose(host, ps[1..], lit + [c], name);
        assert name[|lit|..][1..] == name[|lit + [c]|..];
        assert lit == (lit + [c])[..|lit|];
      case Placeholder(token) =>
        var placed := PlaceholderSegmentsOf(host, token);
        var m := WritesSplit(Flush(lit) + placed, Compile(host, ps[1..], ""), name);
        var k := WritesSplit(Flush(lit), placed, name[..m]);
        FlushWritten(lit, name[..m][..k]);
        GeneratedIsLoose(host, ps[1..], "", name[m..]);
        assert name[m..][0..] == name[m..];
        assert name[|lit|..][m - k..] == name[m..];
      case Unterminated =>
        GeneratedIsLoose(host, ps[1..], lit, name);
    }
  }

  lemma {:induction false} LooseIsMatched(all: seq<Piece>, i: nat, name: string)
    requires i <= |all| && Loose(all[i..], name) && NoClass(Tokens(MatchText(all), i))
    ensures Matches(Tokens(MatchText(all), i), name)
    decreases |all| - i, |name|
  {
    var p := MatchText(all);
    if i < |all| {
      MatchTextAt(all, i);
      var ts := Tokens(p, i);
      assert all[i..][0] == all[i] && all[i..][1..] == all[i + 1..];
      if p[i] != '*' { assert ts[0] == One(ElementAt(p, i).0); }
      assert ts[1..] == Tokens(p, i + 1);
      assert NoClass(ts[1..]) by { TailNoClass(ts); }
      match all[i]
      case Text(c) =>
        LooseIsMatched(all, i + 1, name[1..]);
        if c == '*' {
          assert Matches(ts, name[1..]);
        }
      case Placeholder(_) =>
        var k :| 0 <= k <= |name| && Loose(all[i + 1..], name[k..]);
        LooseIsMatched(all, i + 1, name[k..]);
        StarSkips(ts, k, name);
      case Unterminated =>
        LooseIsMatched(all, i + 1, name);
    }
  }

  lemma {:induction false} StarSkips(ts: seq<Token>, k: nat, name: string)
    requires k <= |name| && ts != [] && ts[0].Star? && Matches(ts[1..], name[k..])
    ensures Matches(ts, name)
    decreases k
  {
    if k == 0 {
      assert name[0..] == name;
    } else {
      assert name[1..][k - 1..] == name[k..];
      StarSkips(ts, k - 1, name[1..]);
    }
  }

  lemma TailNoClass(ts: seq<Token>)
    requires ts != [] && NoClass(ts)
    ensures NoClass(ts[1..])
  {
    forall i | 0 <= i < |ts[1..]| && ts[1..][i].One? ensures !ts[1..][i].e.Class? {
      assert ts[1..][i] == ts[i + 1];
    }
  }

  lemma {:induction false} MatchTextAt(ps: seq<Piece>, i: nat)
    requires i < |ps|
    ensures MatchText(ps)[i] == if ps[i].Text? then ps[i].c else '*'
  {
    if i > 0 { MatchTextAt(ps[1..], i - 1); }
  }

  /** A group's glob matches every name its format generates, as long as no bracket of its
      text opens a class that something closes. */
  lemma OwnNamesAreMatched(host: Host, format: string, name: string)
    requires NoClass(Tokens(MatchText(Pieces(format)), 0))
    requires Writes(Compile(host, Pieces(format), ""), name)
    ensures GlobMatches(MatchText(Pieces(format)), name)
  {
    GeneratedIsLoose(host, Pieces(format), "", name);
    assert name[0..] == name && Pieces(format)[0..] == Pieces(format);
    LooseIsMatched(Pieces(format), 0, name);
  }

  /** In particular it matches the archives this group's runs really write. */
  lemma OwnArchivesAreMatched(host: Host, env: Env, format: string)
    requires RunsOn(env, host)
    requires NoClass(Tokens(MatchText(Pieces(format)), 0))
    ensures GlobMatches(MatchText(Pieces(format)), Expand(env, Pieces(format)))
  {
    EveryWrittenNameIsGenerated(host, env, format);
    OwnNamesAreMatched(host, format, Expand(env, Pieces(format)));
  }

  /** Text without any `[` is the simplest way to meet the condition. */
  lemma {:induction false} NoBracketNoClass(p: string, i: nat)
    requires i <= |p| && forall j :: i <= j < |p| ==> p[j] != '['
    ensures NoClass(Tokens(p, i))
    decreases |p| - i
  {
    if i < |p| {
      NoBracketNoClass(p, i + 1);
      forall j | 0 <= j < |Tokens(p, i)| && Tokens(p, i)[j].One? ensures !Tokens(p, i)[j].e.Class? {
        if j > 0 { assert Tokens(p, i)[j] == Tokens(p, i + 1)[j - 1]; }
      }
    }
  }

  /** A format whose text outside placeholders has no bracket is always covered, however its
      braces nest, stray or stay open. */
  lemma BracketFreeFormatsAreCovered(host: Host, format: string, name: string)
    requires forall p | p in Pieces(format) && p.Text? :: p.c != '['
    requires Writes(Compile(host, Pieces(format), ""), name)
    ensures GlobMatches(MatchText(Pieces(format)), name)
  {
    var ps := Pieces(format);
    forall j | 0 <= j < |MatchText(ps)| ensures MatchText(ps)[j] != '[' {
      MatchTextAt(ps, j);
      assert ps[j] in ps;
    }
    NoBracketNoClass(MatchText(ps), 0);
    OwnNamesAreMatched(host, format, name);
  }

  // ---- When it does not ----------------------------------------------------------------------

  /** How many characters a star-free token list matches. */
  lemma {:induction false} StarFreeLength(ts: seq<Token>, name: string)
    requires Matches(ts, name) && forall i | 0 <= i < |ts| :: ts[i].One?
    ensures |ts| == |name|
  {
    if ts != [] {
      forall i | 0 <= i < |ts[1..]| ensures ts[1..][i].One? { assert ts[1..][i] == ts[i + 1]; }
      StarFreeLength(ts[1..], name[1..]);
    }
  }

  lemma {:induction false} TokenCount(p: string, i: nat)
    requires i <= |p| && forall j :: i <= j < |p| ==> p[j] != '*'
    ensures var ts := Tokens(p, i);
            && |ts| <= |p| - i
            && (forall k | 0 <= k < |ts| :: ts[k].One?)
            && (|ts| == |p| - i ==> NoClass(ts))
    decreases |p| - i
  {
    if i < |p| {
      var (e, after) := ElementAt(p, i);
      TokenCount(p, after);
      var ts, tail := Tokens(p, i), Tokens(p, after);
      assert ts == [One(e)] + tail;
      forall k | 0 <= k < |ts| ensures ts[k].One? {
        if k > 0 { assert ts[k] == tail[k - 1]; }
      }
      if |ts| == |p| - i {
        forall k | 0 <= k < |ts| && ts[k].One? ensures !ts[k].e.Class? {
          if k > 0 { assert ts[k] == tail[k - 1]; }
        }
      }
    }
  }

  lemma {:induction false} PlainPieces(format: string, i: nat, token: string)
    requires i <= |format| && '{' !in format
    ensures var ps := Scan(format, i, 0, token);
            && |ps| == |format| - i
            && forall k :: 0 <= k < |ps| ==> ps[k] == Text(format[i + k])
    decreases |format| - i
  {
    if i < |format| {
      PlainPieces(format, i + 1, token);
      var ps, tail := Scan(format, i, 0, token), Scan(format, i + 1, 0, token);
      assert ps == [Text(format[i])] + tail;
      forall k | 0 <= k < |ps| ensures ps[k] == Text(format[i + k]) {
        if k > 0 { assert ps[k] == tail[k - 1]; }
      }
    }
  }

  lemma {:induction false} PlainLoose(ps: seq<Piece>, name: string)
    requires forall k | 0 <= k < |ps| :: ps[k].Text?
    ensures Loose(ps, name) <==> |ps| == |name| && forall k :: 0 <= k < |ps| ==> ps[k].c == name[k]
  {
    if ps != [] && name != "" {
      forall k | 0 <= k < |ps[1..]| ensures ps[1..][k].Text? { assert ps[1..][k] == ps[k + 1]; }
      PlainLoose(ps[1..], name[1..]);
      if Loose(ps, name) {
        forall k | 0 <= k < |ps| ensures ps[k].c == name[k] {
          if k > 0 { assert ps[1..][k - 1].c == name[1..][k - 1]; }
        }
      }
      if |ps| == |name| && forall k :: 0 <= k < |ps| ==> ps[k].c == name[k] {
        forall k | 0 <= k < |ps[1..]| ensures ps[1..][k].c == name[1..][k] {
          assert ps[1..][k] == ps[k + 1];
        }
      }
    }
  }

  lemma {:induction false} PlainCompile(host: Host, ps: seq<Piece>, lit: string, name: string)
    requires forall k | 0 <= k < |ps| :: ps[k].Text?
    requires |name| == |ps| && forall k :: 0 <= k < |ps| ==> ps[k].c == name[k]
    ensures Compile(host, ps, lit) == Flush(lit + name)
    decreases |ps|
  {
    if ps == [] {
      assert lit + name == lit;
    } else {
      forall k | 0 <= k < |ps[1..]| ensures ps[1..][k].Text? && ps[1..][k].c == name[1..][k] {
        assert ps[1..][k] == ps[k + 1];
      }
      PlainCompile(host, ps[1..], lit + [ps[0].c], name[1..]);
      assert lit + [ps[0].c] + name[1..] == lit + name;
    }
  }

  /** Where the first star of the glob is read, or its end. */
  function FirstStar(p: string, i: nat): (j: nat)
    requires i <= |p|
    ensures i <= j <= |p| && (j < |p| ==> p[j] == '*')
    decreases |p| - i
  {
    if i == |p| || p[i] == '*' then i else FirstStar(p, ElementAt(p, i).1)
  }

  /** The tokens read up to there. */
  function LeadTokens(p: string, i: nat): seq<Token>
    requires i <= |p|
    decreases |p| - i
  {
    if i == |p| || p[i] == '*' then [] else [One(ElementAt(p, i).0)] + LeadTokens(p, ElementAt(p, i).1)
  }

  /** And the star, if there is one. */
  function Lead(p: string): seq<Token> {
    LeadTokens(p, 0) + if FirstStar(p, 0) < |p| then [Star] else []
  }

  lemma {:induction false} LeadAndRest(p: string, i: nat)
    requires i <= |p|
    ensures Tokens(p, i) == LeadTokens(p, i) + Tokens(p, FirstStar(p, i))
    decreases |p| - i
  {
    hide ElementAt;
    if i < |p| && p[i] != '*' {
      var (e, after) := ElementAt(p, i);
      LeadAndRest(p, after);
      var tail, rest := LeadTokens(p, after), Tokens(p, FirstStar(p, after));
      assert [One(e)] + (tail + rest) == [One(e)] + tail + rest;
    }
  }

  lemma {:induction false} LeadSize(p: string, i: nat)
    requires i <= |p|
    ensures |LeadTokens(p, i)| <= FirstStar(p, i) - i
    ensures forall k | 0 <= k < |LeadTokens(p, i)| :: LeadTokens(p, i)[k].One?
    decreases |p| - i
  {
    hide ElementAt;
    if i < |p| && p[i] != '*' {
      var (e, after) := ElementAt(p, i);
      LeadSize(p, after);
      var lead, tail := LeadTokens(p, i), LeadTokens(p, after);
      assert lead == [One(e)] + tail;
      forall k | 0 <= k < |lead| ensures lead[k].One? {
        if k > 0 { assert lead[k] == tail[k - 1]; }
      }
    }
  }

  ghost predicate AcceptsEach(lead: seq<Token>, name: string) {
    |lead| <= |name| && forall k | 0 <= k < |lead| && lead[k].One? :: Accepts(lead[k].e, name[k])
  }

  /** Before any star, tokens and characters pair off. */
  lemma {:induction false} LeadMatches(lead: seq<Token>, rest: seq<Token>, name: string)
    requires forall k | 0 <= k < |lead| :: lead[k].One?
    ensures Matches(lead + rest, name) <==> AcceptsEach(lead, name) && Matches(rest, name[|lead|..])
  {
    if lead == [] {
      assert lead + rest == rest && name[0..] == name;
    } else if name != "" {
      assert (lead + rest)[1..] == lead[1..] + rest;
      forall k | 0 <= k < |lead[1..]| ensures lead[1..][k].One? { assert lead[1..][k] == lead[k + 1]; }
      LeadMatches(lead[1..], rest, name[1..]);
      if |lead| <= |name| { assert name[1..][|lead| - 1..] == name[|lead|..]; }
      assert AcceptsEach(lead, name) <==> Accepts(lead[0].e, name[0]) && AcceptsEach(lead[1..], name[1..]) by {
        forall k | 0 <= k < |lead[1..]| ensures lead[1..][k] == lead[k + 1] {}
        if AcceptsEach(lead[1..], name[1..]) && Accepts(lead[0].e, name[0]) {
          forall k | 0 <= k < |lead| && lead[k].One? ensures Accepts(lead[k].e, name[k]) {
            if k > 0 { assert lead[1..][k - 1] == lead[k] && name[1..][k - 1] == name[k]; }
          }
        }
      }
    }
  }

  /** A generated name begins with the text before the first placeholder. */
  lemma {:induction false} LooseLead(ps: seq<Piece>, j: nat, name: string)
    requires j <= |ps| && Loose(ps, name) && forall k | 0 <= k < j :: ps[k].Text?
    ensures j <= |name| && Loose(ps[j..], name[j..]) && forall k :: 0 <= k < j ==> name[k] == ps[k].c
    decreases j
  {
    if j == 0 {
      assert ps[0..] == ps && name[0..] == name;
    } else {
      forall k | 0 <= k < j - 1 ensures ps[1..][k].Text? { assert ps[1..][k] == ps[k + 1]; }
      LooseLead(ps[1..], j - 1, name[1..]);
      assert ps[1..][j - 1..] == ps[j..] && name[1..][j - 1..] == name[j..];
      forall k | 0 <= k < j ensures name[k] == ps[k].c {
        if k > 0 { assert name[1..][k - 1] == ps[1..][k - 1].c; }
      }
    }
  }

  lemma GeneratedLead(host: Host, format: string, j: nat, name: string)
    requires Writes(Compile(host, Pieces(format), ""), name)
    requires j <= |Pieces(format)| && '*' !in MatchText(Pieces(format))[..j]
    ensures j <= |name| && name[..j] == MatchText(Pieces(format))[..j] && Loose(Pieces(format)[j..], name[j..])
  {
    var ps := Pieces(format);
    GeneratedIsLoose(host, ps, "", name);
    assert name[0..] == name;
    forall k | 0 <= k < j ensures ps[k].Text? && MatchText(ps)[k] == ps[k].c {
      MatchTextAt(ps, k);
      assert MatchText(ps)[..j][k] == MatchText(ps)[k];
    }
    LooseLead(ps, j, name);
  }

  /** Some run writes something. */
  lemma SomethingIsWritten(host: Host, format: string) returns (name: string)
    ensures Writes(Compile(host, Pieces(format), ""), name)
  {
    var t := Clock(2024, 1, 1, 0, 0, 0, 1, _ => "", "");
    var env := Env(host.hostname, host.user, t, t, _ => "");
    name := Expand(env, Pieces(format));
    EveryWrittenNameIsGenerated(host, env, format);
  }

  /** Whatever follows: when the glob reads the text before the first placeholder as
      something one of its characters does not satisfy, no name the format generates is
      matched. */
  lemma LeadingTextMissed(host: Host, format: string, k: nat, name: string)
    requires k < |Pieces(format)| && '*' !in MatchText(Pieces(format))[..k + 1]
    requires var ts := Tokens(MatchText(Pieces(format)), 0);
             && k < |ts| && (forall i | 0 <= i <= k :: ts[i].One?)
             && !Accepts(ts[k].e, MatchText(Pieces(format))[k])
    requires Writes(Compile(host, Pieces(format), ""), name)
    ensures !GlobMatches(MatchText(Pieces(format)), name)
  {
    var p := MatchText(Pieces(format));
    var ts := Tokens(p, 0);
    GeneratedLead(host, format, k + 1, name);
    assert name[k] == name[..k + 1][k] == p[k];
    assert ts == ts[..k + 1] + ts[k + 1..] && ts[..k + 1][k] == ts[k];
    LeadMatches(ts[..k + 1], ts[k + 1..], name);
  }

  lemma {:induction false} StarAbsorbs(ts: seq<Token>, name: string, k: nat)
    requires ts != [] && ts[0].Star? && k <= |name| && Matches(ts, name[k..])
    ensures Matches(ts, name)
    decreases k
  {
    if k == 0 {
      assert name[0..] == name;
    } else {
      assert name[1..][k - 1..] == name[k..];
      StarAbsorbs(ts, name[1..], k - 1);
    }
  }

  /** When no class of the glob reaches to or lies behind its first star, the condition is
      exact: the glob covers everything the format generates if and only if the text before
      the first placeholder, read as a glob, matches itself. If it does not, nothing the
      format generates is matched. */
  lemma LeadingBracketsExactly(host: Host, format: string)
    requires var p := MatchText(Pieces(format)); '*' !in p[..FirstStar(p, 0)] && NoClass(Tokens(p, FirstStar(p, 0)))
    ensures var p := MatchText(Pieces(format));
            var covered := Matches(Lead(p), p[..FirstStar(p, 0)]);
            && ((forall name | Writes(Compile(host, Pieces(format), ""), name) :: GlobMatches(p, name)) <==> covered)
            && (!covered ==> forall name | Writes(Compile(host, Pieces(format), ""), name) :: !GlobMatches(p, name))
  {
    var p := MatchText(Pieces(format));
    hide Compile, Matches;
    forall name | Writes(Compile(host, Pieces(format), ""), name)
      ensures GlobMatches(p, name) <==> Matches(Lead(p), p[..FirstStar(p, 0)])
    {
      LeadDecides(host, format, name);
    }
    var name := SomethingIsWritten(host, format);
  }

  lemma LeadDecides(host: Host, format: string, name: string)
    requires var p := MatchText(Pieces(format)); '*' !in p[..FirstStar(p, 0)] && NoClass(Tokens(p, FirstStar(p, 0)))
    requires Writes(Compile(host, Pieces(format), ""), name)
    ensures var p := MatchText(Pieces(format)); GlobMatches(p, name) <==> Matches(Lead(p), p[..FirstStar(p, 0)])
  {
    var ps := Pieces(format);
    var p := MatchText(ps);
    var j, lead := FirstStar(p, 0), LeadTokens(p, 0);
    GeneratedLead(host, format, j, name);
    LooseIsMatched(ps, j, name[j..]);
    LeadAndRest(p, 0);
    LeadSize(p, 0);
    LeadMatches(lead, Tokens(p, j), name);
    LeadMatches(lead, if j < |p| then [Star] else [], p[..j]);
    assert AcceptsEach(lead, name) <==> AcceptsEach(lead, p[..j]) by {
      forall k | 0 <= k < |lead| ensures name[k] == p[..j][k] { assert name[..j][k] == name[k]; }
    }
    hide AcceptsEach;
    if j < |p| {
      assert name[|lead|..][j - |lead|..] == name[j..];
      StarAbsorbs(Tokens(p, j), name[|lead|..], j - |lead|);
      StarTakesAll(p[..j][|lead|..]);
    } else {
      assert ps[j..] == [] && name[j..] == "" && p[..j] == p && name == name[..j];
    }
  }

  lemma {:induction false} StarTakesAll(name: string)
    ensures Matches([Star], name)
    decreases |name|
  {
    if name != "" { StarTakesAll(name[1..]); }
  }

  // Text behind the last placeholder is matched from the end.

  /** Tokens that are no class and the pattern's characters pair off. */
  lemma {:induction false} OneByOne(p: string, i: nat, m: nat)
    requires i <= m <= |p| && m - i <= |Tokens(p, i)| && NoClass(Tokens(p, i)[..m - i])
    ensures Tokens(p, i)[m - i..] == Tokens(p, m)
    decreases m - i
  {
    if i == m {
      assert Tokens(p, i)[0..] == Tokens(p, i);
    } else {
      var ts, rest := Tokens(p, i), Tokens(p, i + 1);
      FirstByItself(p, i, m - i);
      assert ts[..m - i][1..] == rest[..m - i - 1] && ts[m - i..] == rest[m - i - 1..];
      TailNoClass(ts[..m - i]);
      OneByOne(p, i + 1, m);
    }
  }

  lemma FirstByItself(p: string, i: nat, n: nat)
    requires i < |p| && 0 < n <= |Tokens(p, i)| && NoClass(Tokens(p, i)[..n])
    ensures Tokens(p, i) == [Tokens(p, i)[0]] + Tokens(p, i + 1)
    ensures Tokens(p, i)[0] == if p[i] == '*' then Star else if p[i] == '?' then One(AnyChar) else One(Literal(p[i]))
  {
    assert Tokens(p, i)[..n][0] == Tokens(p, i)[0];
  }

  /** From i the pattern reads as single characters up to index l. */
  ghost predicate Plain(p: string, i: nat, l: nat)
    requires i <= l < |p|
  {
    l - i < |Tokens(p, i)| && NoClass(Tokens(p, i)[..l - i])
  }

  /** The tokens from there up to and with index l. */
  ghost function UpTo(p: string, i: nat, l: nat): seq<Token>
    requires i <= l < |p| && Plain(p, i, l)
  {
    Tokens(p, i)[..l - i + 1]
  }

  lemma UpToStep(p: string, i: nat, l: nat)
    requires i < l < |p| && Plain(p, i, l)
    ensures Plain(p, i + 1, l)
    ensures UpTo(p, i, l) == [if p[i] == '*' then Star else if p[i] == '?' then One(AnyChar) else One(Literal(p[i]))]
                             + UpTo(p, i + 1, l)
  {
    FirstByItself(p, i, l - i);
    hide Tokens, NoClass;
    TakeCons(Tokens(p, i)[0], Tokens(p, i + 1), l - i - 1);
    TakeCons(Tokens(p, i)[0], Tokens(p, i + 1), l - i);
    TailNoClass(Tokens(p, i)[..l - i]);
  }

  lemma TakeCons(t: Token, rest: seq<Token>, n: nat)
    requires n <= |rest|
    ensures ([t] + rest)[..n + 1] == [t] + rest[..n] && ([t] + rest)[..n + 1][1..] == rest[..n]
  {}

  lemma UpToStar(p: string, l: nat)
    requires l < |p| && Plain(p, l, l) && p[l] == '*'
    ensures UpTo(p, l, l) == [Star]
  {}

  /** Up to the last star, which takes whatever is left, a generated name is matched. */
  lemma {:induction false} LooseToStar(ps: seq<Piece>, i: nat, l: nat, name: string, more: string)
    requires i <= l < |ps| && MatchText(ps)[l] == '*' && Loose(ps[i..l + 1], name) && Plain(MatchText(ps), i, l)
    ensures Matches(UpTo(MatchText(ps), i, l), name + more)
    decreases l - i, |name|
  {
    hide Tokens, Plain, UpTo;
    var p := MatchText(ps);
    MatchTextAt(ps, i);
    if i == l {
      UpToStar(p, l);
      StarTakesAll(name + more);
    } else {
      UpToStep(p, i, l);
      var ts, rest := UpTo(p, i, l), UpTo(p, i + 1, l);
      assert ts[1..] == rest;
      assert ps[i..l + 1][0] == ps[i] && ps[i..l + 1][1..] == ps[i + 1..l + 1];
      match ps[i]
      case Text(c) =>
        LooseToStar(ps, i + 1, l, name[1..], more);
        assert (name + more)[1..] == name[1..] + more && (name + more)[0] == c;
        TextTaken(ts, c, name + more);
      case Placeholder(_) =>
        var k :| 0 <= k <= |name| && Loose(ps[i + 1..l + 1], name[k..]);
        LooseToStar(ps, i + 1, l, name[k..], more);
        assert (name + more)[k..] == name[k..] + more;
        StarSkips(ts, k, name + more);
      case Unterminated =>
        LooseToStar(ps, i + 1, l, name, more);
        StarDrops(ts, name + more);
    }
  }

  lemma TextTaken(ts: seq<Token>, c: char, name: string)
    requires ts != [] && name != "" && name[0] == c && Matches(ts[1..], name[1..])
    requires ts[0] == if c == '*' then Star else if c == '?' then One(AnyChar) else One(Literal(c))
    ensures Matches(ts, name)
  {
    if c == '*' { StarDrops(ts, name[1..]); }
  }

  lemma StarDrops(ts: seq<Token>, name: string)
    requires ts != [] && ts[0].Star? && Matches(ts[1..], name)
    ensures Matches(ts, name)
  {}

  ghost predicate AllText(ps: seq<Piece>) { forall k | 0 <= k < |ps| :: ps[k].Text? }

  /** Plain text is matched by itself alone. */
  lemma {:induction false} TextIsItself(ps: seq<Piece>, name: string)
    requires AllText(ps) && Loose(ps, name)
    ensures name == MatchText(ps)
  {
    if ps != [] {
      forall k | 0 <= k < |ps[1..]| ensures ps[1..][k].Text? { assert ps[1..][k] == ps[k + 1]; }
      TextIsItself(ps[1..], name[1..]);
      assert name == [name[0]] + name[1..];
    }
  }

  /** A generated name ends with the text behind the last placeholder. */
  lemma {:induction false} LooseEnd(a: seq<Piece>, b: seq<Piece>, name: string) returns (front: string)
    requires Loose(a + b, name) && AllText(b)
    ensures name == front + MatchText(b) && Loose(a, front)
    decreases |a|
  {
    hide AllText;
    if a == [] {
      assert a + b == b;
      TextIsItself(b, name);
      return "";
    }
    assert (a + b)[1..] == a[1..] + b && (a + b)[0] == a[0];
    match a[0]
    case Text(_) =>
      var rest := LooseEnd(a[1..], b, name[1..]);
      front := [name[0]] + rest;
      assert front[1..] == rest && name == [name[0]] + name[1..];
    case Placeholder(_) =>
      var k :| 0 <= k <= |name| && Loose((a + b)[1..], name[k..]);
      var rest := LooseEnd(a[1..], b, name[k..]);
      front := name[..k] + rest;
      assert front[k..] == rest && name == name[..k] + name[k..];
    case Unterminated =>
      front := LooseEnd(a[1..], b, name);
  }

  lemma {:induction false} MatchTextFrom(ps: seq<Piece>, m: nat)
    requires m <= |ps|
    ensures MatchText(ps[m..]) == MatchText(ps)[m..]
    decreases m
  {
    if m == 0 {
      assert ps[0..] == ps;
    } else {
      MatchTextFrom(ps[1..], m - 1);
      assert ps[1..][m - 1..] == ps[m..];
    }
  }

  lemma {:induction false} NoShorter(front: seq<Token>, tail: seq<Token>, name: string)
    requires Matches(front + tail, name) && forall k | 0 <= k < |tail| :: tail[k].One?
    ensures |tail| <= |name|
    decreases |front| + |name|
  {
    if front == [] {
      assert front + tail == tail;
      StarFreeLength(tail, name);
    } else {
      Behind(front, tail);
      if front[0].One? {
        NoShorter(front[1..], tail, name[1..]);
      } else if Matches(front[1..] + tail, name) {
        NoShorter(front[1..], tail, name);
      } else {
        NoShorter(front, tail, name[1..]);
      }
    }
  }

  /** Behind any star, tokens and characters pair off from the end. */
  lemma {:induction false} EndMatches(front: seq<Token>, tail: seq<Token>, a: string, c: string)
    requires |c| == |tail| && forall k | 0 <= k < |tail| :: tail[k].One?
    ensures Matches(front + tail, a + c) <==> Matches(front, a) && AcceptsEach(tail, c)
    decreases |front| + |a|
  {
    hide AcceptsEach;
    if front == [] {
      assert front + tail == tail + [];
      LeadMatches(tail, [], a + c);
      if a == "" { assert a + c == c; }
    } else {
      Behind(front, tail);
      if front[0].Star? { EndMatches(front[1..], tail, a, c); }
      if a != "" {
        assert (a + c)[1..] == a[1..] + c;
        EndMatches(if front[0].Star? then front else front[1..], tail, a[1..], c);
      } else if c != "" {
        assert a + c == c;
        if Matches(front + tail, c[1..]) { NoShorter(front, tail, c[1..]); }
        if front[0].One? && Matches(front[1..] + tail, c[1..]) { NoShorter(front[1..], tail, c[1..]); }
      }
    }
  }

  lemma Behind(front: seq<Token>, tail: seq<Token>)
    requires front != []
    ensures (front + tail)[0] == front[0] && (front + tail)[1..] == front[1..] + tail
  {}

  /** The text of a glob behind index l, read as a glob, matches the end of itself. */
  ghost predicate TailMatchesItself(p: string, l: nat)
    requires l < |p|
  {
    var text, tail := p[l + 1..], Tokens(p, l + 1);
    |tail| <= |text| && AcceptsEach(tail, text[|text| - |tail|..])
  }

  /** With the classes of the glob before its first star and behind its last, the condition is
      exact too: everything the format generates is matched if and only if the text before the
      first placeholder, read as a glob, matches itself, and the text behind the last one the
      end of itself. If not, nothing the format generates is matched. */
  lemma OuterBracketsExactly(host: Host, format: string, l: nat)
    requires var p := MatchText(Pieces(format));
             var j := FirstStar(p, 0);
             && '*' !in p[..j] && j <= l < |p| && p[l] == '*' && '*' !in p[l + 1..] && Plain(p, j, l)
    ensures var p := MatchText(Pieces(format));
            var covered := Matches(Lead(p), p[..FirstStar(p, 0)]) && TailMatchesItself(p, l);
            && ((forall name | Writes(Compile(host, Pieces(format), ""), name) :: GlobMatches(p, name)) <==> covered)
            && (!covered ==> forall name | Writes(Compile(host, Pieces(format), ""), name) :: !GlobMatches(p, name))
  {
    var p := MatchText(Pieces(format));
    hide Compile, Matches, TailMatchesItself;
    forall name | Writes(Compile(host, Pieces(format), ""), name)
      ensures GlobMatches(p, name) <==> Matches(Lead(p), p[..FirstStar(p, 0)]) && TailMatchesItself(p, l)
    {
      OuterDecides(host, format, l, name);
    }
    var name := SomethingIsWritten(host, format);
  }

  lemma TailSize(p: string, i: nat)
    requires i <= |p| && '*' !in p[i..]
    ensures |Tokens(p, i)| <= |p| - i && forall k | 0 <= k < |Tokens(p, i)| :: Tokens(p, i)[k].One?
  {
    forall j | i <= j < |p| ensures p[j] != '*' { assert p[i..][j - i] == p[j]; }
    TokenCount(p, i);
  }

  lemma OuterDecides(host: Host, format: string, l: nat, name: string)
    requires var p := MatchText(Pieces(format));
             var j := FirstStar(p, 0);
             && '*' !in p[..j] && j <= l < |p| && p[l] == '*' && '*' !in p[l + 1..] && Plain(p, j, l)
    requires Writes(Compile(host, Pieces(format), ""), name)
    ensures var p := MatchText(Pieces(format));
            GlobMatches(p, name) <==> Matches(Lead(p), p[..FirstStar(p, 0)]) && TailMatchesItself(p, l)
  {
    var ps := Pieces(format);
    var p := MatchText(ps);
    var j, lead := FirstStar(p, 0), LeadTokens(p, 0);
    GeneratedLead(host, format, j, name);
    LeadAndRest(p, 0);
    LeadSize(p, 0);
    LeadMatches(lead, Tokens(p, j), name);
    LeadMatches(lead, [Star], p[..j]);
    assert AcceptsEach(lead, name) <==> AcceptsEach(lead, p[..j]) by {
      forall k | 0 <= k < |lead| ensures name[k] == p[..j][k] { assert name[..j][k] == name[k]; }
    }
    StarTakesAll(p[..j][|lead|..]);
    assert name[|lead|..] == name[|lead|..j] + name[j..];
    RestDecides(ps, j, l, name[|lead|..j], name[j..]);
  }

  /** From the first star on, whatever stands before it. */
  lemma RestDecides(ps: seq<Piece>, j: nat, l: nat, x: string, y: string)
    requires var p := MatchText(ps);
             j <= l < |p| && p[j] == '*' && p[l] == '*' && '*' !in p[l + 1..] && Plain(p, j, l)
    requires Loose(ps[j..], y)
    ensures Matches(Tokens(MatchText(ps), j), x + y) <==> TailMatchesItself(MatchText(ps), l)
  {
    hide Tokens, Plain, UpTo, Loose, AcceptsEach, Matches, MatchText, AllText;
    var p := MatchText(ps);
    var tail := Tokens(p, l + 1);
    TailSize(p, l + 1);
    SplitAtStar(p, j, l);
    var front := EndIsText(ps, j, l, y);
    var text := p[l + 1..];
    var more, c := text[..|text| - |tail|], text[|text| - |tail|..];
    Regroup(x, front, more, c);
    assert text == more + c;
    LooseToStar(ps, j, l, front, more);
    StarBefore(UpTo(p, j, l), x, front + more);
    EndMatches(UpTo(p, j, l), tail, x + (front + more), c);
  }

  lemma Regroup(x: string, front: string, more: string, c: string)
    ensures x + (front + (more + c)) == x + (front + more) + c
  {}

  lemma StarBefore(ts: seq<Token>, x: string, name: string)
    requires ts != [] && ts[0].Star? && Matches(ts, name)
    ensures Matches(ts, x + name)
  {
    assert (x + name)[|x|..] == name;
    StarAbsorbs(ts, x + name, |x|);
  }

  lemma SplitAtStar(p: string, j: nat, l: nat)
    requires j <= l < |p| && Plain(p, j, l) && p[j] == '*' && p[l] == '*'
    ensures UpTo(p, j, l) != [] && UpTo(p, j, l)[0] == Star && Tokens(p, j) == UpTo(p, j, l) + Tokens(p, l + 1)
  {
    OneByOne(p, j, l);
    assert Tokens(p, j)[l - j..] == [Star] + Tokens(p, l + 1);
    assert Tokens(p, j) == Tokens(p, j)[..l - j + 1] + Tokens(p, j)[l - j..][1..];
  }

  lemma EndIsText(ps: seq<Piece>, j: nat, l: nat, y: string) returns (front: string)
    requires j <= l < |ps| && Loose(ps[j..], y) && '*' !in MatchText(ps)[l + 1..]
    ensures y == front + MatchText(ps)[l + 1..] && Loose(ps[j..l + 1], front)
  {
    hide *;
    TextAfter(ps, l + 1);
    CutAt(ps, j, l + 1);
    MatchTextFrom(ps, l + 1);
    front := LooseEnd(ps[j..l + 1], ps[l + 1..], y);
  }

  lemma CutAt(ps: seq<Piece>, j: nat, m: nat)
    requires j <= m <= |ps|
    ensures ps[j..] == ps[j..m] + ps[m..]
  {}

  lemma TextAfter(ps: seq<Piece>, m: nat)
    requires m <= |ps| && '*' !in MatchText(ps)[m..]
    ensures AllText(ps[m..])
  {
    MatchTextFrom(ps, m);
    forall k | 0 <= k < |ps[m..]| ensures ps[m..][k].Text? { MatchTextAt(ps[m..], k); }
  }

  /** For a format without placeholders or stars the condition is exact: the glob covers
      the one name the format writes if and only if its text reads as no class. */
  lemma PlainFormatsCoveredExactly(host: Host, format: string)
    requires '{' !in format && '*' !in format
    ensures (forall name | Writes(Compile(host, Pieces(format), ""), name) ::
            GlobMatches(MatchText(Pieces(format)), name))
       <==> NoClass(Tokens(format, 0))
  {
    var ps := Pieces(format);
    PlainPieces(format, 0, "");
    forall k | 0 <= k < |format| ensures MatchText(ps)[k] == format[k] { MatchTextAt(ps, k); }
    assert MatchText(ps) == format;
    if NoClass(Tokens(format, 0)) {
      forall name | Writes(Compile(host, ps, ""), name) ensures GlobMatches(format, name) {
        OwnNamesAreMatched(host, format, name);
      }
    } else {
      PlainCompile(host, ps, "", format);
      assert "" + format == format;
      FlushWrites(format);
      TokenCount(format, 0);
      if GlobMatches(format, format) { StarFreeLength(Tokens(format, 0), format); }
    }
  }

  /** The class `[a]` at the front of a glob. */
  lemma ClassOfA(p: string)
    requires "[a]" <= p
    ensures Tokens(p, 0) == [One(Class(false, [Span('a', 'a')]))] + Tokens(p, 3)
    ensures !Accepts(Tokens(p, 0)[0].e, p[0])
  {
    assert p[0] == '[' && p[1] == 'a' && p[2] == ']';
    assert ClassItems(p, 2, false) == Some(([], 3));
    assert ClassItem(p, 1) == (Span('a', 'a'), 2);
    assert [Span('a', 'a')] + [] == [Span('a', 'a')];
    assert ClassItems(p, 1, true) == Some(([Span('a', 'a')], 3));
    assert ClassAt(p, 0) == Some((Class(false, [Span('a', 'a')]), 3));
  }

  /** The smallest format whose own glob misses its archive. */
  lemma BracketedTextIsMissed(host: Host)
    ensures Writes(Compile(host, Pieces("[a]"), ""), "[a]")
    ensures !GlobMatches(MatchText(Pieces("[a]")), "[a]")
  {
    var f := "[a]";
    PlainPieces(f, 0, "");
    forall k | 0 <= k < 3 ensures MatchText(Pieces(f))[k] == f[k] { MatchTextAt(Pieces(f), k); }
    assert MatchText(Pieces(f)) == f;
    PlainCompile(host, Pieces(f), "", f);
    assert "" + f == f;
    FlushWrites(f);
    hide Tokens, ClassAt, Compile, Scan;
    ClassOfA(f);
    LeadingTextMissed(host, f, 0, f);
  }

  /** With a placeholder behind it the brackets do the same: no archive of `[a]-{now}` is
      matched by that format's own glob. */
  lemma BracketedPrefixIsMissed(host: Host, name: string)
    requires Writes(Compile(host, Pieces("[a]-{now}"), ""), name)
    ensures !GlobMatches(MatchText(Pieces("[a]-{now}")), name)
  {
    hide *;
    var f := "[a]-{now}";
    assert f[..3] == "[a]";
    PrefixPieces(f);
    var p := MatchText(Pieces(f));
    ClassOfA(p);
    assert p[0] == "[a]"[0];
    LeadingTextMissed(host, f, 0, name);
  }

  lemma PrefixPieces(f: string)
    requires |f| > 3 && f[..3] == "[a]"
    ensures "[a]" <= MatchText(Pieces(f))
  {
    var ps := Pieces(f);
    assert f[0] == f[..3][0] && f[1] == f[..3][1] && f[2] == f[..3][2];
    assert ps == [Text('[')] + Scan(f, 1, 0, "");
    assert Scan(f, 1, 0, "") == [Text('a')] + Scan(f, 2, 0, "");
    assert Scan(f, 2, 0, "") == [Text(']')] + Scan(f, 3, 0, "");
    assert ps[1] == Text('a') && ps[2] == Text(']');
    forall k | 0 <= k < 3 ensures MatchText(ps)[k] == f[k] { MatchTextAt(ps, k); }
  }
}
