/**
 The names a restore gives the scratch directories it makes beside a volume. Cleanup acts
 on names, so a name must say which volume and which purpose it was made for.
 */
module ScratchNames {
  import opened Characters
  import opened Wrappers

  const STAGING: string := ".borgmatic-manager-restoring-"
  const REPLACED: string := ".borgmatic-manager-replaced-"
  const KEPT: string := ".borgmatic-manager-kept-"

  predicate Digits(s: string) { s != "" && forall i | 0 <= i < |s| :: IsDigit(s[i]) }

  /** A timestamp as 20060102-150405 renders it. */
  predicate Stamp(s: string) {
    |s| == 15 && s[8] == '-' && forall i | 0 <= i < 15 && i != 8 :: IsDigit(s[i])
  }

  function KeptPrefix(stamp: string): string { KEPT + stamp + "-" }

  /** The purposes a scratch name can have. */
  predicate Purpose(prefix: string) {
    prefix == STAGING || prefix == REPLACED
    || (|prefix| == |KEPT| + 16 && prefix[..|KEPT|] == KEPT && Stamp(prefix[|KEPT|..|KEPT| + 15])
        && prefix[|KEPT| + 15] == '-')
  }

  /** Where the last star of a temporary-name pattern is. */
  function LastStar(pattern: string): (r: Option<nat>)
    ensures r.Some? ==> r.value < |pattern| && pattern[r.value] == '*'
  {
    if pattern == "" then None
    else if pattern[|pattern| - 1] == '*' then Some(|pattern| - 1)
    else LastStar(pattern[..|pattern| - 1])
  }

  /** MkdirTemp puts its random digits in place of the last star, or at the end. */
  function MkdirTempName(pattern: string, random: string): string {
    match LastStar(pattern)
    case Some(k) => pattern[..k] + random + pattern[k + 1..]
    case None => pattern + random
  }

  function ScratchPattern(base: string, prefix: string): string { base + prefix + "*" }

  /** The name is the prefix followed by digits and nothing else. */
  predicate MadeByMkdirTemp(name: string, prefix: string) {
    prefix <= name && Digits(name[|prefix|..])
  }

  /** The trailing star keeps the random digits at the end whatever stars the volume's own
      name contains. */
  lemma PatternKeepsName(base: string, prefix: string, random: string)
    ensures MkdirTempName(ScratchPattern(base, prefix), random) == base + prefix + random
  {
    var p := ScratchPattern(base, prefix);
    assert p[|p| - 1] == '*';
    assert p[..|p| - 1] == base + prefix;
  }

  lemma CreatedIsRecognised(base: string, prefix: string, random: string)
    requires Digits(random)
    ensures MadeByMkdirTemp(MkdirTempName(ScratchPattern(base, prefix), random), base + prefix)
  {
    PatternKeepsName(base, prefix, random);
    assert (base + prefix + random)[|base + prefix|..] == random;
  }

  /** What recognition accepts is exactly what creation makes. */
  lemma RecognisedExactly(name: string, base: string, prefix: string)
    ensures MadeByMkdirTemp(name, base + prefix)
       <==> exists random :: random != "" && (forall i | 0 <= i < |random| :: '0' <= random[i] <= '9')
                             && name == MkdirTempName(ScratchPattern(base, prefix), random)
  {
    if MadeByMkdirTemp(name, base + prefix) {
      var random := name[|base + prefix|..];
      PatternKeepsName(base, prefix, random);
      assert name == base + prefix + random;
    }
    if random :| random != "" && (forall i | 0 <= i < |random| :: '0' <= random[i] <= '9')
                 && name == MkdirTempName(ScratchPattern(base, prefix), random) {
      CreatedIsRecognised(base, prefix, random);
    }
  }

  /** A digit run after a non-digit ends is found in one way only. */
  lemma DigitTailUnique(x: string, y: string, name: string)
    requires MadeByMkdirTemp(name, x) && MadeByMkdirTemp(name, y)
    requires x != "" && y != "" && !IsDigit(x[|x| - 1]) && !IsDigit(y[|y| - 1])
    ensures x == y
  {
    assert forall k :: |x| <= k < |name| ==> name[k] == name[|x|..][k - |x|];
    assert forall k :: |y| <= k < |name| ==> name[k] == name[|y|..][k - |y|];
    assert name[|x| - 1] == x[|x| - 1] && name[|y| - 1] == y[|y| - 1];
    assert x == name[..|x|] && y == name[..|y|];
  }

  lemma PurposeEnds(base: string, prefix: string)
    requires Purpose(prefix)
    ensures var x := base + prefix;
            && |x| >= 2 && x[|x| - 1] == '-'
            && (prefix == STAGING ==> x[|x| - 2] == 'g')
            && (prefix == REPLACED ==> x[|x| - 2] == 'd')
            && (prefix != STAGING && prefix != REPLACED ==> IsDigit(x[|x| - 2]))
  {
    var x := base + prefix;
    assert x[|x| - 1] == prefix[|prefix| - 1] && x[|x| - 2] == prefix[|prefix| - 2];
    if prefix != STAGING && prefix != REPLACED {
      assert prefix[|KEPT|..|KEPT| + 15][14] == prefix[|prefix| - 2];
    }
  }

  /** A name belongs to one volume and one purpose: staging, replaced and kept names are
      never confused, and two volumes' names never meet. */
  lemma OneOwner(name: string, base1: string, prefix1: string, base2: string, prefix2: string)
    requires Purpose(prefix1) && Purpose(prefix2)
    requires MadeByMkdirTemp(name, base1 + prefix1) && MadeByMkdirTemp(name, base2 + prefix2)
    ensures base1 == base2 && prefix1 == prefix2
  {
    PurposeEnds(base1, prefix1);
    PurposeEnds(base2, prefix2);
    DigitTailUnique(base1 + prefix1, base2 + prefix2, name);
    var x := base1 + prefix1;
    assert |prefix1| == |prefix2|;
    assert base1 == x[..|base1|] && base2 == x[..|base2|];
    assert prefix1 == x[|base1|..] && prefix2 == x[|base2|..];
  }

  /** No scratch name is the volume's own. */
  lemma NotTheVolume(base: string, prefix: string)
    requires Purpose(prefix)
    ensures !MadeByMkdirTemp(base, base + prefix)
  {
    assert |base + prefix| > |base|;
  }

  lemma KeptIsPurpose(stamp: string)
    requires Stamp(stamp)
    ensures Purpose(KeptPrefix(stamp))
  {
    var p := KeptPrefix(stamp);
    assert p[..|KEPT|] == KEPT && p[|KEPT|..|KEPT| + 15] == stamp;
  }
}
