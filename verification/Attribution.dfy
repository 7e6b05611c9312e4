/**
 Which repositories a failed run blames. borg names repositories inside free text, so the
 configured spellings are looked for as whole tokens, longest first, and no stretch of a
 message counts for more than one of them. The results of a successful run are paired with
 the configured repositories, each result with at most one.
 */
module Attribution {
  import opened Wrappers

  // ---- Tokens ----------------------------------------------------------------------------------

  /** Characters that can continue a path name. */
  predicate IsNameChar(c: char) {
    'a' <= c <= 'z' || 'A' <= c <= 'Z' || '0' <= c <= '9' || c in ".-_@+=~%#^!" || c as int >= 0x80
  }

  /** What ends a path name, among the characters of ASCII. */
  lemma Delimiters(c: char)
    ensures !IsNameChar(c) <==>
              c <= ' ' || c == '"' || c == '$' || '&' <= c <= '*' || c == ',' || c == '/' || ':' <= c <= '<'
              || '>' <= c <= '?' || '[' <= c <= ']' || c == '`' || '{' <= c <= '}' || c as int == 0x7f
  {}

  predicate OccursAt(msg: string, path: string, start: nat) {
    start + |path| <= |msg| && msg[start..start + |path|] == path
  }

  /** The path stands at `start` and no name character adjoins it. */
  predicate TokenAt(msg: string, path: string, start: nat) {
    && path != "" && OccursAt(msg, path, start)
    && (start == 0 || !IsNameChar(msg[start - 1]))
    && (start + |path| >= |msg| || !IsNameChar(msg[start + |path|]))
  }

  /** The path between two texts, touched by delimiters only, where by anything. */
  predicate Apart(before: string, path: string, after: string) {
    && (before == "" || !IsNameChar(before[|before| - 1]))
    && path != ""
    && (after == "" || !IsNameChar(after[0]))
  }

  lemma TokenStandsApart(before: string, path: string, after: string)
    ensures TokenAt(before + path + after, path, |before|) <==> Apart(before, path, after)
  {
    hide IsNameChar;
    var msg := before + path + after;
    assert msg[|before|..|before| + |path|] == path;
    assert before != "" ==> msg[|before| - 1] == before[|before| - 1];
    assert after != "" ==> msg[|before| + |path|] == after[0];
  }

  method Index(msg: string, path: string, from: nat) returns (r: Option<nat>)
    requires from <= |msg|
    ensures r.Some? ==> from <= r.value && OccursAt(msg, path, r.value) && forall k: nat :: from <= k < r.value ==>
            !OccursAt(msg, path, k)
    ensures r.None? ==> forall k: nat :: from <= k ==> !OccursAt(msg, path, k)
  {
    var k: nat := from;
    while k + |path| <= |msg|
      invariant from <= k && forall j: nat :: from <= j < k ==> !OccursAt(msg, path, j)
      decreases |msg| - k
    {
      if msg[k..k + |path|] == path { return Some(k); }
      k := k + 1;
    }
    return None;
  }

  /** Every offset at which the path is a token, overlapping ones included. */
  method TokenOccurrences(msg: string, path: string) returns (out: seq<nat>)
    ensures forall s: nat :: s in out <==> TokenAt(msg, path, s)
    ensures forall i, j :: 0 <= i < j < |out| ==> out[i] < out[j]
  {
    out := [];
    if path == "" { return; }
    var idx: nat := 0;
    while true
      invariant idx <= |msg| && forall i :: 0 <= i < |out| ==> out[i] < idx
      invariant forall s: nat :: s in out <==> s < idx && TokenAt(msg, path, s)
      invariant forall i, j :: 0 <= i < j < |out| ==> out[i] < out[j]
      decreases |msg| - idx
    {
      var found := Index(msg, path, idx);
      if found.None? {
        assert forall s: nat :: TokenAt(msg, path, s) ==> s < idx;
        return;
      }
      var start := found.value;
      assert forall s: nat :: idx <= s < start ==> !TokenAt(msg, path, s);
      var end := start + |path|;
      if (start == 0 || !IsNameChar(msg[start - 1])) && (end >= |msg| || !IsNameChar(msg[end])) {
        out := out + [start];
      }
      idx := start + 1;
    }
  }

  // ---- Credit ------------------------------------------------------------------------------------

  datatype Candidate = Candidate(repo: nat, spelling: string)

  /** A stretch of a message credited to a repository. */
  datatype Credit = Credit(repo: nat, spelling: string, start: nat)

  predicate Covers(c: Credit, p: nat) { c.start <= p < c.start + |c.spelling| }

  predicate Overlaps(c: Credit, spelling: string, start: nat) {
    c.start < start + |spelling| && start < c.start + |c.spelling|
  }

  ghost predicate Disjoint(credits: set<Credit>) {
    forall c, d | c in credits && d in credits && c != d :: !Overlaps(c, d.spelling, d.start)
  }

  /** Only whole tokens of configured spellings are credited. */
  ghost predicate Genuine(msg: string, candidates: seq<Candidate>, credits: set<Credit>) {
    forall c | c in credits :: TokenAt(msg, c.spelling, c.start) && Candidate(c.repo, c.spelling) in candidates
  }

  /** Longer spellings come first, and among equals those of the repository configured first. */
  predicate Before(a: Candidate, b: Candidate) {
    |a.spelling| > |b.spelling| || (|a.spelling| == |b.spelling| && a.repo <= b.repo)
  }

  function By(c: Credit): Candidate { Candidate(c.repo, c.spelling) }

  /** A token goes without credit only when it overlaps a credited one that is longer, or as
      long and of no later repository. */
  ghost predicate Accounted(credits: set<Credit>, cand: Candidate, start: nat) {
    || Credit(cand.repo, cand.spelling, start) in credits
    || exists c :: c in credits && Overlaps(c, cand.spelling, start) && Before(By(c), cand)
  }

  ghost predicate Attributed(msg: string, candidates: seq<Candidate>, credits: set<Credit>) {
    && Genuine(msg, candidates, credits) && Disjoint(credits)
    && forall cand, start: nat | cand in candidates && TokenAt(msg, cand.spelling, start) ::
        Accounted(credits, cand, start)
  }

  predicate LongestFirst(cs: seq<Candidate>) {
    forall i, j :: 0 <= i < j < |cs| ==> Before(cs[i], cs[j])
  }

  /** Among equals the earlier configured stays first. */
  function Insert(x: Candidate, s: seq<Candidate>): (r: seq<Candidate>)
    ensures multiset(r) == multiset(s) + multiset{x}
  {
    if s == [] || |s[0].spelling| <= |x.spelling| then [x] + s
    else
      assert s == [s[0]] + s[1..];
      [s[0]] + Insert(x, s[1..])
  }

  function SortLongestFirst(s: seq<Candidate>): (r: seq<Candidate>)
    ensures multiset(r) == multiset(s)
  {
    if s == [] then []
    else
      assert s == [s[0]] + s[1..];
      Insert(s[0], SortLongestFirst(s[1..]))
  }

  lemma {:induction false} InsertKeepsOrder(x: Candidate, s: seq<Candidate>)
    requires LongestFirst(s) && forall c | c in s :: x.repo <= c.repo
    ensures LongestFirst(Insert(x, s))
  {
    if s != [] && |s[0].spelling| > |x.spelling| {
      assert forall c | c in s[1..] :: c in s;
      InsertKeepsOrder(x, s[1..]);
      var r := Insert(x, s[1..]);
      forall j | 0 <= j < |r| ensures Before(s[0], r[j]) {
        assert r[j] in multiset(r);
        assert r[j] == x || r[j] in s[1..];
      }
    } else {
      forall j | 0 <= j < |s| ensures Before(x, s[j]) { assert s[j] in s; }
    }
  }

  predicate AsConfigured(s: seq<Candidate>) { forall i, j :: 0 <= i < j < |s| ==> s[i].repo <= s[j].repo }

  lemma {:induction false} Sorted(s: seq<Candidate>)
    requires AsConfigured(s)
    ensures LongestFirst(SortLongestFirst(s))
    ensures forall c :: c in SortLongestFirst(s) <==> c in s
  {
    if s != [] {
      Sorted(s[1..]);
      InsertKeepsOrder(s[0], SortLongestFirst(s[1..]));
    }
    forall c ensures c in SortLongestFirst(s) <==> c in s {
      assert c in SortLongestFirst(s) <==> c in multiset(SortLongestFirst(s));
      assert c in s <==> c in multiset(s);
    }
  }

  method OverlapsClaimed(claimed: array<bool>, start: nat, end: nat) returns (r: bool)
    ensures r <==> exists p :: start <= p < end && p < claimed.Length && claimed[p]
  {
    var i := start;
    while i < end && i < claimed.Length
      invariant start <= i && forall p :: start <= p < i && p < claimed.Length ==> !claimed[p]
    {
      if claimed[i] { return true; }
      i := i + 1;
    }
    return false;
  }

  method ClaimRange(claimed: array<bool>, start: nat, end: nat)
    requires start <= end <= claimed.Length
    modifies claimed
    ensures forall p :: 0 <= p < claimed.Length ==> claimed[p] == (start <= p < end || old(claimed[p]))
  {
    for i := start to end
      invariant forall p :: 0 <= p < claimed.Length ==> claimed[p] == (start <= p < i || old(claimed[p]))
    {
      claimed[i] := true;
    }
  }

  /** The bytes spoken for are those of the credits. */
  ghost predicate Marks(claimed: seq<bool>, credits: set<Credit>) {
    forall p :: 0 <= p < |claimed| ==> (claimed[p] <==> exists c :: c in credits && Covers(c, p))
  }

  /** Credits one candidate's tokens where nothing longer has been credited. */
  method CreditCandidate(msg: string, candidates: seq<Candidate>, k: nat, claimed: array<bool>,
                         ghost before: set<Credit>)
    returns (named: bool, ghost credits: set<Credit>)
    requires k < |candidates| && LongestFirst(candidates) && claimed.Length == |msg|
    requires Genuine(msg, candidates[..k], before) && Disjoint(before) && Marks(claimed[..], before)
    requires forall i, start: nat | 0 <= i < k && TokenAt(msg, candidates[i].spelling, start) ::
             Accounted(before, candidates[i], start)
    modifies claimed
    ensures Genuine(msg, candidates[..k + 1], credits) && Disjoint(credits) && Marks(claimed[..], credits)
    ensures forall i, start: nat | 0 <= i <= k && TokenAt(msg, candidates[i].spelling, start) ::
            Accounted(credits, candidates[i], start)
    ensures before <= credits && forall c | c in credits && c !in before :: c.repo == candidates[k].repo
    ensures named <==> credits != before
  {
    hide TokenAt, Accounted, Disjoint, Marks;
    var cand := candidates[k];
    named, credits := false, before;
    assert forall c | c in candidates[..k] :: Before(c, cand);
    assert candidates[..k + 1] == candidates[..k] + [cand];
    var occurrences := TokenOccurrences(msg, cand.spelling);
    for i := 0 to |occurrences|
      invariant before <= credits && (named <==> credits != before)
      invariant forall c | c in credits && c !in before :: c.repo == cand.repo
      invariant forall c | c in credits :: Before(By(c), cand)
      invariant Genuine(msg, candidates[..k + 1], credits) && Disjoint(credits) && Marks(claimed[..], credits)
      invariant forall s | s in occurrences[..i] :: Accounted(credits, cand, s)
    {
      assert occurrences[..i + 1] == occurrences[..i] + [occurrences[i]];
      assert occurrences[i] in occurrences;
      ghost var earlier := credits;
      var hit: bool;
      hit, credits := CreditToken(msg, candidates[..k + 1], cand, occurrences[i], claimed, credits);
      named := named || hit;
      forall s | s in occurrences[..i] ensures Accounted(credits, cand, s) {
        StillAccounted(earlier, credits, cand, s);
      }
    }
    forall i, start: nat | 0 <= i <= k && TokenAt(msg, candidates[i].spelling, start)
      ensures Accounted(credits, candidates[i], start)
    {
      if i < k { StillAccounted(before, credits, candidates[i], start); }
    }
  }

  lemma StillAccounted(before: set<Credit>, credits: set<Credit>, cand: Candidate, start: nat)
    requires before <= credits && Accounted(before, cand, start)
    ensures Accounted(credits, cand, start)
  {}

  /** Credits one token unless a credited one overlaps it. */
  method CreditToken(msg: string, candidates: seq<Candidate>, cand: Candidate, start: nat, claimed: array<bool>,
                     ghost before: set<Credit>)
    returns (given: bool, ghost credits: set<Credit>)
    requires cand in candidates && TokenAt(msg, cand.spelling, start) && claimed.Length == |msg|
    requires Genuine(msg, candidates, before) && Disjoint(before) && Marks(claimed[..], before)
    requires forall c | c in before :: Before(By(c), cand)
    modifies claimed
    ensures Genuine(msg, candidates, credits) && Disjoint(credits) && Marks(claimed[..], credits)
    ensures Accounted(credits, cand, start)
    ensures given ==> Credit(cand.repo, cand.spelling, start) !in before
    ensures credits == if given then before + {Credit(cand.repo, cand.spelling, start)} else before
  {
    forall c | c in before ensures |c.spelling| > 0 && c.start + |c.spelling| <= |msg| {
      TokenFits(msg, c.spelling, c.start);
    }
    TokenFits(msg, cand.spelling, start);
    hide TokenAt, Disjoint;
    var end := start + |cand.spelling|;
    var taken := OverlapsClaimed(claimed, start, end);
    if taken {
      ghost var p :| start <= p < end && p < claimed.Length && claimed[p];
      assert claimed[..][p];
      ghost var c :| c in before && Covers(c, p);
      assert Overlaps(c, cand.spelling, start);
      return false, before;
    }
    ghost var was := claimed[..];
    ClaimRange(claimed, start, end);
    NewCreditFits(was, claimed[..], before, Credit(cand.repo, cand.spelling, start), msg);
    return true, before + {Credit(cand.repo, cand.spelling, start)};
  }

  lemma TokenFits(msg: string, path: string, start: nat)
    requires TokenAt(msg, path, start)
    ensures start + |path| <= |msg| && |path| > 0
  {}

  lemma NewCreditFits(was: seq<bool>, now: seq<bool>, credits: set<Credit>, given: Credit, msg: string)
    requires Marks(was, credits) && |was| == |now| == |msg| && Disjoint(credits) && |given.spelling| > 0
    requires given.start + |given.spelling| <= |was|
    requires forall c | c in credits :: |c.spelling| > 0 && c.start + |c.spelling| <= |was|
    requires forall p :: 0 <= p < |was| && Covers(given, p) ==> !was[p]
    requires forall p :: 0 <= p < |was| ==> now[p] == (Covers(given, p) || was[p])
    ensures given !in credits && Marks(now, credits + {given}) && Disjoint(credits + {given})
  {
    if given in credits { assert Covers(given, given.start); }
    forall c | c in credits ensures !Overlaps(c, given.spelling, given.start) && !Overlaps(given, c.spelling, c.start) {
      if Overlaps(c, given.spelling, given.start) {
        var p := if c.start < given.start then given.start else c.start;
        assert Covers(c, p) && Covers(given, p) && 0 <= p < |was|;
      }
    }
  }

  /** Decides for every repository at once which ones the error messages name. */
  method ImplicatedRepos(spellings: seq<seq<string>>, messages: seq<string>)
    returns (out: seq<bool>, ghost credits: seq<set<Credit>>)
    ensures |out| == |spellings| && |credits| == |messages|
    ensures forall m :: 0 <= m < |messages| ==> Attributed(messages[m], Spellings(spellings), credits[m])
    ensures forall i :: 0 <= i < |out| ==>
            (out[i] <==> exists m, c :: 0 <= m < |messages| && c in credits[m] && c.repo == i)
  {
    hide TokenAt, Attributed, Spellings, SortLongestFirst, LongestFirst;
    var configured := Spellings(spellings);
    SpellingsAreOf(spellings);
    SpellingsInOrder(spellings);
    var candidates := SortLongestFirst(configured);
    Sorted(configured);
    out, credits := seq(|spellings|, _ => false), [];
    for m := 0 to |messages|
      invariant |out| == |spellings| && |credits| == m
      invariant forall j :: 0 <= j < m ==> Attributed(messages[j], configured, credits[j])
      invariant forall i :: 0 <= i < |out| ==> (out[i] <==> exists j, c :: 0 <= j < m && c in credits[j] && c.repo == i)
    {
      ghost var given: set<Credit>;
      ghost var before, earlier := out, credits;
      out, given := CreditMessage(messages[m], candidates, out);
      AttributedInAnyOrder(messages[m], candidates, configured, given);
      credits := credits + [given];
      assert credits[m] == given && credits[..m] == earlier;
      forall i | 0 <= i < |out| ensures out[i] <==> exists j, c :: 0 <= j < m + 1 && c in credits[j] && c.repo == i {
        if before[i] {
          var j: nat, c: Credit :| j < m && c in earlier[j] && c.repo == i;
          assert c in credits[j];
        }
      }
    }
  }

  lemma AttributedInAnyOrder(msg: string, sorted: seq<Candidate>, configured: seq<Candidate>, credits: set<Credit>)
    requires Attributed(msg, sorted, credits) && forall c :: c in sorted <==> c in configured
    ensures Attributed(msg, configured, credits)
  {
    hide TokenAt, Accounted, Disjoint;
  }

  method CreditMessage(msg: string, candidates: seq<Candidate>, named: seq<bool>)
    returns (out: seq<bool>, ghost credits: set<Credit>)
    requires LongestFirst(candidates) && forall c | c in candidates :: c.repo < |named|
    ensures |out| == |named| && Attributed(msg, candidates, credits)
    ensures forall i :: 0 <= i < |out| ==> (out[i] <==> named[i] || exists c :: c in credits && c.repo == i)
  {
    hide TokenAt, Accounted, Disjoint;
    out, credits := named, {};
    var claimed := new bool[|msg|](_ => false);
    NoCredits(msg, candidates, claimed[..]);
    for k := 0 to |candidates|
      invariant |out| == |named|
      invariant Genuine(msg, candidates[..k], credits) && Disjoint(credits) && Marks(claimed[..], credits)
      invariant forall i, start: nat | 0 <= i < k && TokenAt(msg, candidates[i].spelling, start) ::
                Accounted(credits, candidates[i], start)
      invariant forall i :: 0 <= i < |out| ==> (out[i] <==> named[i] || exists c :: c in credits && c.repo == i)
    {
      ghost var before := credits;
      var hit: bool;
      assert candidates[k] in candidates;
      hit, credits := CreditCandidate(msg, candidates, k, claimed, credits);
      if hit {
        ghost var given :| given in credits && given !in before;
        out := out[candidates[k].repo := true];
      }
    }
    assert candidates[..|candidates|] == candidates;
  }

  lemma NoCredits(msg: string, candidates: seq<Candidate>, claimed: seq<bool>)
    requires |claimed| == |msg| && forall p :: 0 <= p < |claimed| ==> !claimed[p]
    ensures Genuine(msg, candidates[..0], {}) && Disjoint({}) && Marks(claimed, {})
  {}

  /** Every spelling of every repository. */
  function Spellings(spellings: seq<seq<string>>): seq<Candidate> {
    if spellings == [] then []
    else
      var last := |spellings| - 1;
      Spellings(spellings[..last])
          + seq(|spellings[last]|, j requires 0 <= j < |spellings[last]| => Candidate(last, spellings[last][j]))
  }

  lemma {:induction false} SpellingsAreOf(spellings: seq<seq<string>>)
    ensures forall c :: c in Spellings(spellings) <==> c.repo < |spellings| && c.spelling in spellings[c.repo]
  {
    if spellings != [] {
      var last := |spellings| - 1;
      SpellingsAreOf(spellings[..last]);
      var own := seq(|spellings[last]|, j requires 0 <= j < |spellings[last]| => Candidate(last, spellings[last][j]));
      forall c ensures c in own <==> c.repo == last && c.spelling in spellings[last] {
        if c.repo == last && c.spelling in spellings[last] {
          var j :| 0 <= j < |spellings[last]| && spellings[last][j] == c.spelling;
          assert own[j] == c;
        }
      }
    }
  }

  lemma {:induction false} SpellingsInOrder(spellings: seq<seq<string>>)
    ensures AsConfigured(Spellings(spellings))
  {
    if spellings != [] {
      var last := |spellings| - 1;
      SpellingsInOrder(spellings[..last]);
      SpellingsAreOf(spellings[..last]);
      var before := Spellings(spellings[..last]);
      forall i | 0 <= i < |before| ensures before[i].repo <= last { assert before[i] in before; }
    }
  }

  // ---- What attribution promises --------------------------------------------------------------------

  /** A token longer than every other configured token it overlaps is always credited. */
  lemma LongestIsCredited(msg: string, candidates: seq<Candidate>, credits: set<Credit>, cand: Candidate, start: nat)
    requires Attributed(msg, candidates, credits) && cand in candidates && TokenAt(msg, cand.spelling, start)
    requires forall other: Credit ::
               Candidate(other.repo, other.spelling) in candidates && TokenAt(msg, other.spelling, other.start)
               && Overlaps(other, cand.spelling, start) && other != Credit(cand.repo, cand.spelling, start)
               ==> |other.spelling| < |cand.spelling|
    ensures Credit(cand.repo, cand.spelling, start) in credits
  {
    assert Accounted(credits, cand, start);
    hide TokenAt;
  }

  /** And then nothing inside it is: a path embedded in a longer configured path is not blamed
      for it. */
  lemma EmbeddedIsNotBlamed(msg: string, candidates: seq<Candidate>, credits: set<Credit>, longer: Credit,
                            inner: Credit)
    requires Attributed(msg, candidates, credits) && longer in credits && inner != longer
    requires inner.spelling != "" && longer.start <= inner.start
             && inner.start + |inner.spelling| <= longer.start + |longer.spelling|
    ensures inner !in credits
  {
    assert Overlaps(longer, inner.spelling, inner.start);
    hide TokenAt;
  }

  // ---- Pairing results with repositories ----------------------------------------------------------------

  datatype Ref = Ref(path: string, tag: string)

  datatype CreateResult = CreateResult(location: string, tag: string)

  predicate Exact(ref: Ref, res: CreateResult) {
    (ref.path != "" && res.location == ref.path) || (ref.tag != "" && res.tag == ref.tag)
  }

  predicate SameIdentity(identity: string -> Option<string>, ref: Ref, res: CreateResult) {
    ref.path != "" && identity(ref.path).Some? && res.location != "" && identity(res.location) == identity(ref.path)
  }

  ghost predicate Pairing(m: map<nat, nat>, refs: nat, results: nat) {
    && (forall i | i in m :: i < refs && m[i] < results)
    && (forall i, j | i in m && j in m && m[i] == m[j] :: i == j)
  }

  predicate Unclaimed(m: map<nat, nat>, j: nat) { j !in m.Values }

  /** The first unclaimed result that fits. */
  method FirstFit(ref: Ref, results: seq<CreateResult>, fits: (Ref, CreateResult) -> bool, m: map<nat, nat>)
    returns (r: Option<nat>)
    ensures r.Some? ==> r.value < |results| && Unclaimed(m, r.value) && fits(ref, results[r.value])
    ensures forall k: nat | k < |results| && Unclaimed(m, k) && (r.Some? ==> k < r.value) :: !fits(ref, results[k])
  {
    for j: nat := 0 to |results|
      invariant forall k: nat | k < j && Unclaimed(m, k) :: !fits(ref, results[k])
    {
      if Unclaimed(m, j) && fits(ref, results[j]) { return Some(j); }
    }
    return None;
  }

  /** The result went to a repository paired before, or else to an earlier one. */
  ghost predicate GoneTo(m: map<nat, nat>, before: map<nat, nat>, i: nat, j: nat) {
    exists x :: x in m && m[x] == j && (x in before || x < i)
  }

  /** Whatever a repository does without, or passes by, has gone to another before it. */
  ghost predicate Greedy(configured: seq<Ref>, results: seq<CreateResult>, fits: (Ref, CreateResult) -> bool,
                         before: map<nat, nat>, m: map<nat, nat>, n: nat)
    requires n <= |configured|
  {
    forall i: nat, j: nat | i < n && i !in before && j < |results| && fits(configured[i], results[j])
                            && (i !in m || j < m[i]) :: GoneTo(m, before, i, j)
  }

  lemma GreedyStart(configured: seq<Ref>, results: seq<CreateResult>, fits: (Ref, CreateResult) -> bool,
                    before: map<nat, nat>)
    ensures Greedy(configured, results, fits, before, before, 0)
  {}

  lemma GreedyPaired(configured: seq<Ref>, results: seq<CreateResult>, fits: (Ref, CreateResult) -> bool,
                     before: map<nat, nat>, m: map<nat, nat>, i: nat)
    requires i < |configured| && Greedy(configured, results, fits, before, m, i) && i in before
    ensures Greedy(configured, results, fits, before, m, i + 1)
  {}

  lemma GreedyStep(configured: seq<Ref>, results: seq<CreateResult>, fits: (Ref, CreateResult) -> bool,
                   before: map<nat, nat>, was: map<nat, nat>, m: map<nat, nat>, i: nat)
    requires i < |configured| && Greedy(configured, results, fits, before, was, i) && i !in was
    requires forall x | x in was :: x in before || x < i
    requires forall x | x in was :: x in m && m[x] == was[x]
    requires forall x | x in m && x != i :: x in was
    requires forall j: nat | j < |results| && Unclaimed(was, j) && (i !in m || j < m[i]) ::
               !fits(configured[i], results[j])
    ensures Greedy(configured, results, fits, before, m, i + 1)
  {
    forall x: nat, j: nat | x <= i && x !in before && j < |results| && fits(configured[x], results[j])
                            && (x !in m || j < m[x])
      ensures GoneTo(m, before, x, j)
    {
      if x < i {
        assert GoneTo(was, before, x, j);
        var y :| y in was && was[y] == j && (y in before || y < x);
        assert y in m && m[y] == j;
      } else {
        assert !Unclaimed(was, j);
        var y :| y in was && was[y] == j;
        assert y in m && m[y] == j;
      }
    }
  }

  /** One pass: every repository not yet paired takes the first unclaimed result that fits. */
  method Pass(configured: seq<Ref>, results: seq<CreateResult>, fits: (Ref, CreateResult) -> bool,
              before: map<nat, nat>)
    returns (m: map<nat, nat>)
    requires Pairing(before, |configured|, |results|)
    ensures Pairing(m, |configured|, |results|)
    ensures forall i | i in before :: i in m && m[i] == before[i]
    ensures forall i | i in m && i !in before :: fits(configured[i], results[m[i]])
    ensures forall i: nat, j: nat | i < |configured| && i !in m && j < |results| && Unclaimed(m, j) ::
            !fits(configured[i], results[j])
    ensures Greedy(configured, results, fits, before, m, |configured|)
  {
    hide Greedy;
    m := before;
    GreedyStart(configured, results, fits, before);
    for i: nat := 0 to |configured|
      invariant Pairing(m, |configured|, |results|)
      invariant forall x | x in before :: x in m && m[x] == before[x]
      invariant forall x | x in m && x !in before :: x < i && fits(configured[x], results[m[x]])
      invariant forall x: nat, j: nat | x < i && x !in m && j < |results| && Unclaimed(m, j) ::
                !fits(configured[x], results[j])
      invariant Greedy(configured, results, fits, before, m, i)
    {
      if i in m {
        GreedyPaired(configured, results, fits, before, m, i);
        continue;
      }
      ghost var was := m;
      var found := FirstFit(configured[i], results, fits, m);
      if found.Some? { m := m[i := found.value]; }
      assert forall k: nat | Unclaimed(m, k) :: Unclaimed(was, k) by { ClaimsGrow(was, m); }
      GreedyStep(configured, results, fits, before, was, m, i);
    }
  }

  lemma ClaimsGrow(was: map<nat, nat>, m: map<nat, nat>)
    requires forall i | i in was :: i in m && m[i] == was[i]
    ensures forall k: nat | Unclaimed(m, k) :: Unclaimed(was, k)
  {}

  /** The one repository and the one result left over, when there is exactly one of each. */
  ghost predicate Lone(m: map<nat, nat>, i: nat, j: nat, refs: nat, results: nat) {
    && i < refs && j < results && i !in m && Unclaimed(m, j)
    && (forall x: nat | x < refs && x !in m :: x == i)
    && (forall y: nat | y < results && Unclaimed(m, y) :: y == j)
  }

  /** Exact evidence goes first: a repository goes without a result that it names exactly only
      for one it names exactly and that comes no later, or where the result went to an
      earlier repository that names it exactly as well. */
  ghost predicate ExactFirst(configured: seq<Ref>, results: seq<CreateResult>, m: map<nat, nat>)
    requires Pairing(m, |configured|, |results|)
  {
    forall i: nat, j: nat | i < |configured| && j < |results| && Exact(configured[i], results[j]) ::
      || (i in m && m[i] <= j && Exact(configured[i], results[m[i]]))
      || exists x :: x in m && m[x] == j && x < i && Exact(configured[x], results[j])
  }

  /** Canonical evidence comes next: a repository without an exact result has the first that is
      canonically its own, unless that went to an exact pairing or to an earlier repository. */
  ghost predicate CanonicalNext(configured: seq<Ref>, results: seq<CreateResult>,
                                identity: string -> Option<string>, m: map<nat, nat>)
    requires Pairing(m, |configured|, |results|)
  {
    forall i: nat, j: nat | i < |configured| && j < |results| && SameIdentity(identity, configured[i], results[j]) ::
      Served(configured, results, identity, m, i, j)
  }

  ghost predicate Served(configured: seq<Ref>, results: seq<CreateResult>, identity: string -> Option<string>,
                         m: map<nat, nat>, i: nat, j: nat)
    requires Pairing(m, |configured|, |results|) && i < |configured| && j < |results|
  {
    || (i in m && Exact(configured[i], results[m[i]]))
    || (i in m && m[i] <= j && SameIdentity(identity, configured[i], results[m[i]]))
    || exists x :: x in m && m[x] == j
         && (Exact(configured[x], results[j]) || (x < i && SameIdentity(identity, configured[x], results[j])))
  }

  /** Who the result went to, in a pairing that keeps what was paired. */
  lemma WentTo(m: map<nat, nat>, before: map<nat, nat>, out: map<nat, nat>, i: nat, j: nat) returns (x: nat)
    requires GoneTo(m, before, i, j) && forall y | y in m :: y in out && out[y] == m[y]
    ensures x in m && m[x] == j && (x in before || x < i) && x in out && out[x] == j
  {
    x :| x in m && m[x] == j && (x in before || x < i);
  }

  lemma ExactGoesFirst(configured: seq<Ref>, results: seq<CreateResult>, exactly: (Ref, CreateResult) -> bool,
                       exact: map<nat, nat>, m: map<nat, nat>)
    requires Pairing(exact, |configured|, |results|) && Pairing(m, |configured|, |results|)
    requires forall i | i in exact :: i in m && m[i] == exact[i] && Exact(configured[i], results[exact[i]])
    requires forall ref, res :: exactly(ref, res) <==> Exact(ref, res)
    requires Greedy(configured, results, exactly, map[], exact, |configured|)
    ensures ExactFirst(configured, results, m)
  {
    hide Exact, Pairing;
    forall i: nat, j: nat | i < |configured| && j < |results| && Exact(configured[i], results[j])
      ensures (i in m && m[i] <= j && Exact(configured[i], results[m[i]]))
              || exists x :: x in m && m[x] == j && x < i && Exact(configured[x], results[j])
    {
      if i !in exact || j < exact[i] {
        assert exactly(configured[i], results[j]);
        var x := WentTo(exact, map[], m, i, j);
        assert x in m && m[x] == j;
      }
    }
  }

  lemma CanonicalGoesNext(configured: seq<Ref>, results: seq<CreateResult>, identity: string -> Option<string>,
                          same: (Ref, CreateResult) -> bool, exact: map<nat, nat>, m: map<nat, nat>,
                          out: map<nat, nat>)
    requires Pairing(m, |configured|, |results|) && Pairing(out, |configured|, |results|)
    requires forall ref, res :: same(ref, res) <==> SameIdentity(identity, ref, res)
    requires forall i | i in exact :: i in m && Exact(configured[i], results[m[i]])
    requires forall i | i in m :: i in out && out[i] == m[i]
    requires forall i | i in m && i !in exact :: SameIdentity(identity, configured[i], results[m[i]])
    requires Greedy(configured, results, same, exact, m, |configured|)
    ensures CanonicalNext(configured, results, identity, out)
  {
    hide Exact, SameIdentity, GoneTo;
    forall i: nat, j: nat | i < |configured| && j < |results| && SameIdentity(identity, configured[i], results[j])
      ensures Served(configured, results, identity, out, i, j)
    {
      if i !in exact && (i !in m || j < m[i]) {
        assert same(configured[i], results[j]);
        var x := WentTo(m, exact, out, i, j);
        assert x in out && out[x] == j;
      }
    }
  }

  method BothPasses(configured: seq<Ref>, results: seq<CreateResult>, ghost identity: string -> Option<string>,
                    exactly: (Ref, CreateResult) -> bool, same: (Ref, CreateResult) -> bool)
    returns (m: map<nat, nat>, ghost exact: map<nat, nat>)
    requires forall ref, res :: exactly(ref, res) <==> Exact(ref, res)
    requires forall ref, res :: same(ref, res) <==> SameIdentity(identity, ref, res)
    ensures Pairing(exact, |configured|, |results|) && Pairing(m, |configured|, |results|)
    ensures forall i | i in exact :: i in m && m[i] == exact[i] && Exact(configured[i], results[exact[i]])
    ensures forall i | i in m && i !in exact :: SameIdentity(identity, configured[i], results[m[i]])
    ensures forall i: nat, j: nat | i < |configured| && i !in m && j < |results| && Unclaimed(m, j) ::
              !Exact(configured[i], results[j]) && !SameIdentity(identity, configured[i], results[j])
    ensures Greedy(configured, results, exactly, map[], exact, |configured|)
    ensures Greedy(configured, results, same, exact, m, |configured|)
    ensures ExactFirst(configured, results, m) && CanonicalNext(configured, results, identity, m)
  {
    hide ExactFirst, CanonicalNext, Greedy, Exact, SameIdentity;
    var first := Pass(configured, results, exactly, map[]);
    exact := first;
    m := Pass(configured, results, same, first);
    ClaimsGrow(exact, m);
    ExactGoesFirst(configured, results, exactly, exact, m);
    CanonicalGoesNext(configured, results, identity, same, exact, m, m);
  }

  /** Each result goes to at most one repository, and only on exact or canonical evidence or
      when nothing else is left; evidence is never left unused. */
  method MatchResults(configured: seq<Ref>, results: seq<CreateResult>, identity: string -> Option<string>)
    returns (m: map<nat, nat>)
    ensures Pairing(m, |configured|, |results|)
    ensures forall i | i in m ::
            Exact(configured[i], results[m[i]]) || SameIdentity(identity, configured[i], results[m[i]])
                                 || Lone(m - {i}, i, m[i], |configured|, |results|)
    ensures forall i: nat, j: nat | i < |configured| && i !in m && j < |results| && Unclaimed(m, j) ::
              !Exact(configured[i], results[j]) && !SameIdentity(identity, configured[i], results[j])
    ensures forall i: nat, j: nat :: !Lone(m, i, j, |configured|, |results|)
    ensures ExactFirst(configured, results, m) && CanonicalNext(configured, results, identity, m)
  {
    hide ExactFirst, CanonicalNext, Greedy;
    var exactly := (ref: Ref, res: CreateResult) =>
        (ref.path != "" && res.location == ref.path) || (ref.tag != "" && res.tag == ref.tag);
    assert forall ref, res :: exactly(ref, res) <==> Exact(ref, res);
    var same := (ref: Ref, res: CreateResult) =>
        ref.path != "" && identity(ref.path).Some? && res.location != ""
            && identity(res.location) == identity(ref.path);
    assert forall ref, res :: same(ref, res) <==> SameIdentity(identity, ref, res);
    hide Exact, SameIdentity;
    ghost var exact;
    m, exact := BothPasses(configured, results, identity, exactly, same);
    ghost var paired := m;
    var ref := OnlyMissing(|configured|, m.Keys);
    if ref.None? {
      NotLone(m, |configured|, |results|);
      return;
    }
    var res := OnlyMissing(|results|, m.Values);
    if res.None? {
      NotLone(m, |configured|, |results|);
      return;
    }
    PairLone(m, ref.value, res.value, |configured|, |results|);
    m := m[ref.value := res.value];
    ExactGoesFirst(configured, results, exactly, exact, m);
    CanonicalGoesNext(configured, results, identity, same, exact, paired, m);
  }

  /** The one number below n that is not taken, if there is exactly one. */
  method OnlyMissing(n: nat, taken: set<nat>) returns (r: Option<nat>)
    ensures r.Some? ==> r.value < n && r.value !in taken && forall x: nat | x < n && x !in taken :: x == r.value
    ensures r.None? ==> NoneAlone(n, taken)
  {
    var lone: Option<nat> := None;
    for i: nat := 0 to n
      invariant lone.Some? ==> lone.value < i && lone.value !in taken
      invariant forall x: nat | x < i && x !in taken :: lone == Some(x)
    {
      if i in taken { continue; }
      if lone.Some? {
        return None;
      }
      lone := Some(i);
    }
    return lone;
  }

  /** None of the numbers below n is missing, or more than one. */
  ghost predicate NoneAlone(n: nat, taken: set<nat>) {
    || (forall x: nat | x < n :: x in taken)
    || exists x: nat, y: nat :: x < y < n && x !in taken && y !in taken
  }

  lemma NotLone(m: map<nat, nat>, refs: nat, results: nat)
    requires NoneAlone(refs, m.Keys) || NoneAlone(results, m.Values)
    ensures forall i: nat, j: nat :: !Lone(m, i, j, refs, results)
  {
    forall i: nat, j: nat ensures !Lone(m, i, j, refs, results) {
      if NoneAlone(refs, m.Keys) && i < refs && i !in m.Keys {
        var y := Another(refs, m.Keys, i);
        assert y !in m;
      }
      if NoneAlone(results, m.Values) && j < results && j !in m.Values {
        var y := Another(results, m.Values, j);
        assert Unclaimed(m, y);
      }
    }
  }

  lemma Another(n: nat, taken: set<nat>, x: nat) returns (y: nat)
    requires NoneAlone(n, taken) && x < n && x !in taken
    ensures y < n && y !in taken && y != x
  {
    var a: nat, b: nat :| a < b < n && a !in taken && b !in taken;
    y := if a == x then b else a;
  }

  lemma PairLone(m: map<nat, nat>, i: nat, j: nat, refs: nat, results: nat)
    requires Pairing(m, refs, results) && i < refs && i !in m && j < results && Unclaimed(m, j)
    requires (forall x: nat | x < refs && x !in m :: x == i)
             && (forall y: nat | y < results && Unclaimed(m, y) :: y == j)
    ensures var paired := m[i := j];
            && Pairing(paired, refs, results) && paired - {i} == m && Lone(paired - {i}, i, paired[i], refs, results)
            && (forall x: nat | x < refs :: x in paired) && (forall x | x in m :: paired[x] == m[x] && x != i)
  {
    assert m[i := j] - {i} == m;
  }
}
