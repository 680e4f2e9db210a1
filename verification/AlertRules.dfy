/** Glob patterns (alerts/model.py) and the order in which evaluate lists what matches
    (alerts/evaluator.py). */
module AlertRules {
  import opened Alerts

  // ----- Globs -----

  /** A compiled part: any run, any one character, or a character up to case. */
  datatype Part = AnyRun | AnyOne | Exactly(letter: char)

  function PartOf(c: char): Part { if c == '*' then AnyRun else if c == '?' then AnyOne else Exactly(c) }

  /** One part per pattern character. */
  function Parts(pattern: string): seq<Part> {
    if pattern == [] then [] else Parts(pattern[..|pattern| - 1]) + [PartOf(pattern[|pattern| - 1])]
  }

  /** A run already ended by AnyRun takes no second one. */
  function Append(parts: seq<Part>, p: Part): seq<Part> {
    if p == AnyRun && parts != [] && parts[|parts| - 1] == AnyRun then parts else parts + [p]
  }

  function Compiled(pattern: string): seq<Part> {
    if pattern == [] then [] else Append(Compiled(pattern[..|pattern| - 1]), PartOf(pattern[|pattern| - 1]))
  }

  method CompileGlob(pattern: string) returns (parts: seq<Part>)
    ensures parts == Compiled(pattern)
  {
    parts := [];
    for n := 0 to |pattern|
      invariant parts == Compiled(pattern[..n])
    {
      var c := pattern[n];
      assert pattern[..n + 1][..n] == pattern[..n];
      if c == '*' {
        if parts == [] || parts[|parts| - 1] != AnyRun {
          parts := parts + [AnyRun];
        }
      } else if c == '?' {
        parts := parts + [AnyOne];
      } else {
        parts := parts + [Exactly(c)];
      }
    }
    assert pattern[..|pattern|] == pattern;
  }

  /** The whole string is matched by the parts; `same` compares characters up to case. */
  predicate Accepts(parts: seq<Part>, text: string, same: (char, char) -> bool)
    decreases |parts|
  {
    if parts == [] then text == []
    else
      match parts[|parts| - 1]
      case AnyRun => exists k :: 0 <= k <= |text| && Accepts(parts[..|parts| - 1], text[..k], same)
      case AnyOne => text != [] && Accepts(parts[..|parts| - 1], text[..|text| - 1], same)
      case Exactly(c) => text != [] && same(c, text[|text| - 1]) && Accepts(parts[..|parts| - 1], text[..|text| - 1], same)
  }

  /** A second AnyRun adds nothing: what it could take, the first one could. */
  lemma TwoRunsAreOne(parts: seq<Part>, text: string, same: (char, char) -> bool)
    requires parts != [] && parts[|parts| - 1] == AnyRun
    ensures Accepts(parts + [AnyRun], text, same) == Accepts(parts, text, same)
  {
    var twice := parts + [AnyRun];
    assert twice[..|twice| - 1] == parts;
    if Accepts(twice, text, same) {
      var k :| 0 <= k <= |text| && Accepts(parts, text[..k], same);
      var j :| 0 <= j <= k && Accepts(parts[..|parts| - 1], text[..k][..j], same);
      assert text[..k][..j] == text[..j];
    }
    if Accepts(parts, text, same) {
      assert text[..|text|] == text;
    }
  }

  /** Parts that accept the same strings still do with the same part appended. */
  lemma AppendKeeps(a: seq<Part>, b: seq<Part>, p: Part, text: string, same: (char, char) -> bool)
    requires forall t :: Accepts(a, t, same) == Accepts(b, t, same)
    ensures Accepts(a + [p], text, same) == Accepts(b + [p], text, same)
  {
    assert (a + [p])[..|a|] == a && (b + [p])[..|b|] == b;
    if p == AnyRun {
      assert forall k :: 0 <= k <= |text| ==> Accepts(a, text[..k], same) == Accepts(b, text[..k], same);
    }
  }

  /** Collapsing runs of stars changes no answer: the compiled parts accept exactly the strings
      the pattern read character by character accepts. */
  lemma {:induction false} CollapsingIsInvisible(pattern: string, text: string, same: (char, char) -> bool)
    ensures Accepts(Compiled(pattern), text, same) == Accepts(Parts(pattern), text, same)
    decreases |pattern|
  {
    if pattern != [] {
      var n := |pattern| - 1;
      var p := PartOf(pattern[n]);
      var compiled := Compiled(pattern[..n]);
      forall t ensures Accepts(compiled, t, same) == Accepts(Parts(pattern[..n]), t, same) {
        CollapsingIsInvisible(pattern[..n], t, same);
      }
      AppendKeeps(compiled, Parts(pattern[..n]), p, text, same);
      if Append(compiled, p) == compiled {
        TwoRunsAreOne(compiled, text, same);
      }
    }
  }

  /** And it does collapse: no two runs stand side by side. */
  lemma {:induction false} NoTwoRuns(pattern: string, i: nat)
    requires i + 1 < |Compiled(pattern)|
    ensures !(Compiled(pattern)[i] == AnyRun == Compiled(pattern)[i + 1])
  {
    var before := Compiled(pattern[..|pattern| - 1]);
    if i + 1 < |before| {
      NoTwoRuns(pattern[..|pattern| - 1], i);
    }
  }

  /** What one pattern character stands for: a star any run, a question mark any one character,
      and every other character itself, up to case. */
  predicate StandsFor(c: char, piece: string, same: (char, char) -> bool) {
    if c == '*' then true
    else |piece| == 1 && (c == '?' || same(c, piece[0]))
  }

  function Joined(pieces: seq<string>): string {
    if pieces == [] then "" else Joined(pieces[..|pieces| - 1]) + pieces[|pieces| - 1]
  }

  /** The text falls into pieces, one for each character of the pattern. */
  ghost predicate FallsInto(pattern: string, pieces: seq<string>, text: string, same: (char, char) -> bool) {
    && |pieces| == |pattern| && Joined(pieces) == text
    && forall i :: 0 <= i < |pattern| ==> StandsFor(pattern[i], pieces[i], same)
  }

  lemma FallsIntoSnoc(pattern: string, c: char, pieces: seq<string>, piece: string, text: string, same: (char, char) -> bool)
    requires FallsInto(pattern, pieces, text, same) && StandsFor(c, piece, same)
    ensures FallsInto(pattern + [c], pieces + [piece], text + piece, same)
  {
    assert (pieces + [piece])[..|pieces|] == pieces;
  }

  lemma FallsIntoInit(pattern: string, pieces: seq<string>, text: string, same: (char, char) -> bool) returns (k: nat)
    requires pattern != [] && FallsInto(pattern, pieces, text, same)
    ensures |pieces| == |pattern|
    ensures
      var n := |pattern| - 1;
      && k <= |text| && text[k..] == pieces[n]
      && FallsInto(pattern[..n], pieces[..n], text[..k], same) && StandsFor(pattern[n], text[k..], same)
  {
    var n := |pattern| - 1;
    k := |Joined(pieces[..n])|;
    assert text[..k] == Joined(pieces[..n]) && text[k..] == pieces[n];
  }

  /** The parts of a pattern accept just the texts that fall into such pieces. */
  lemma {:induction false} PartsMean(pattern: string, text: string, same: (char, char) -> bool)
    ensures Accepts(Parts(pattern), text, same) <==> exists pieces :: FallsInto(pattern, pieces, text, same)
    decreases |pattern|
  {
    hide Accepts, Parts, FallsInto, StandsFor;
    if pattern == [] {
      NothingMeans(text, same);
    } else {
      var n := |pattern| - 1;
      forall k | 0 <= k <= |text|
        ensures Accepts(Parts(pattern[..n]), text[..k], same) <==> exists pieces :: FallsInto(pattern[..n], pieces, text[..k], same)
      {
        PartsMean(pattern[..n], text[..k], same);
      }
      LastPart(pattern, text, same);
      LastPiece(pattern, text, same);
    }
  }

  lemma NothingMeans(text: string, same: (char, char) -> bool)
    ensures Accepts(Parts([]), text, same) <==> exists pieces :: FallsInto([], pieces, text, same)
  {
    if text == [] {
      assert FallsInto([], [], text, same);
    }
  }

  lemma LastPiece(pattern: string, text: string, same: (char, char) -> bool)
    requires pattern != []
    ensures
      var n := |pattern| - 1;
      (exists pieces :: FallsInto(pattern, pieces, text, same)) <==>
      exists k :: 0 <= k <= |text| && (exists pieces :: FallsInto(pattern[..n], pieces, text[..k], same)) && StandsFor(pattern[n], text[k..], same)
  {
    hide FallsInto, StandsFor;
    var n := |pattern| - 1;
    if k :| 0 <= k <= |text| && (exists pieces :: FallsInto(pattern[..n], pieces, text[..k], same)) && StandsFor(pattern[n], text[k..], same) {
      var pieces :| FallsInto(pattern[..n], pieces, text[..k], same);
      FallsIntoSnoc(pattern[..n], pattern[n], pieces, text[k..], text[..k], same);
      assert pattern[..n] + [pattern[n]] == pattern && text[..k] + text[k..] == text;
      assert FallsInto(pattern, pieces + [text[k..]], text, same);
    }
    if pieces :| FallsInto(pattern, pieces, text, same) {
      var k := FallsIntoInit(pattern, pieces, text, same);
      assert FallsInto(pattern[..n], pieces[..n], text[..k], same);
    }
  }

  lemma LastPart(pattern: string, text: string, same: (char, char) -> bool)
    requires pattern != []
    ensures
      var n := |pattern| - 1;
      Accepts(Parts(pattern), text, same) <==>
      exists k :: 0 <= k <= |text| && Accepts(Parts(pattern[..n]), text[..k], same) && StandsFor(pattern[n], text[k..], same)
  {
    var n := |pattern| - 1;
    var before, parts := Parts(pattern[..n]), Parts(pattern);
    assert parts == before + [PartOf(pattern[n])] && parts[..|parts| - 1] == before;
    if pattern[n] != '*' && text != [] {
      assert text[|text| - 1..] == [text[|text| - 1]];
    }
    forall k | 0 <= k <= |text| ensures |text[k..]| == 1 <==> k == |text| - 1 {
    }
  }

  /** So does the compiled pattern. */
  lemma GlobMeans(pattern: string, text: string, same: (char, char) -> bool)
    ensures Accepts(Compiled(pattern), text, same) <==> exists pieces :: FallsInto(pattern, pieces, text, same)
  {
    CollapsingIsInvisible(pattern, text, same);
    PartsMean(pattern, text, same);
  }

  // ----- Evaluation order -----

  datatype CompiledRule = CompiledRule(id: int, severity: Severity, reason: string)

  /** The sort key: highest severity first, then rule id, the built-in's taken as zero. */
  function IdOrZero(p: Proposal): int { if p.key.Rule? then p.key.id else 0 }

  predicate KeyBefore(a: Proposal, b: Proposal) {
    Rank(a.severity) > Rank(b.severity) || (Rank(a.severity) == Rank(b.severity) && IdOrZero(a) < IdOrZero(b))
  }

  predicate Ordered(ps: seq<Proposal>) { forall i, j :: 0 <= i < j < |ps| ==> !KeyBefore(ps[j], ps[i]) }

  function ProposalOf(r: CompiledRule): Proposal { Proposal(Rule(r.id), r.severity, r.reason) }

  /** Everything that matches, in the order the rules come in. */
  function Matching(rules: seq<CompiledRule>, holds: CompiledRule -> bool): seq<Proposal> {
    if rules == [] then []
    else
      var before := Matching(rules[..|rules| - 1], holds);
      if holds(rules[|rules| - 1]) then before + [ProposalOf(rules[|rules| - 1])] else before
  }

  /** A stable sort: each proposal goes after every one it does not precede. */
  function InsertInto(ps: seq<Proposal>, p: Proposal): seq<Proposal> {
    if ps == [] || !KeyBefore(p, ps[|ps| - 1]) then ps + [p]
    else InsertInto(ps[..|ps| - 1], p) + [ps[|ps| - 1]]
  }

  function Sorted(ps: seq<Proposal>): seq<Proposal> {
    if ps == [] then [] else InsertInto(Sorted(ps[..|ps| - 1]), ps[|ps| - 1])
  }

  lemma {:induction false} InsertAdds(ps: seq<Proposal>, p: Proposal)
    ensures multiset(InsertInto(ps, p)) == multiset(ps) + multiset{p}
  {
    if ps != [] && KeyBefore(p, ps[|ps| - 1]) {
      var n := |ps| - 1;
      InsertAdds(ps[..n], p);
      assert ps == ps[..n] + [ps[n]];
    }
  }

  lemma SnocOrdered(ps: seq<Proposal>, p: Proposal)
    requires Ordered(ps) && forall i :: 0 <= i < |ps| ==> !KeyBefore(p, ps[i])
    ensures Ordered(ps + [p])
  {
    hide KeyBefore;
  }

  lemma OrderedParts(ps: seq<Proposal>)
    requires ps != [] && Ordered(ps)
    ensures Ordered(ps[..|ps| - 1])
    ensures forall i :: 0 <= i < |ps| ==> !KeyBefore(ps[|ps| - 1], ps[i])
  {
  }

  lemma NotBeforeAny(p: Proposal, q: Proposal, r: Proposal)
    ensures !KeyBefore(p, q) && !KeyBefore(q, r) ==> !KeyBefore(p, r)
    ensures KeyBefore(p, q) ==> !KeyBefore(q, p)
  {
  }

  lemma {:induction false} InsertKeepsOrder(ps: seq<Proposal>, p: Proposal)
    requires Ordered(ps)
    ensures Ordered(InsertInto(ps, p))
  {
    if ps == [] {
      return;
    }
    OrderedParts(ps);
    hide Ordered, KeyBefore;
    var n := |ps| - 1;
    if KeyBefore(p, ps[n]) {
      var rest := InsertInto(ps[..n], p);
      InsertKeepsOrder(ps[..n], p);
      InsertAdds(ps[..n], p);
      forall i | 0 <= i < |rest| ensures !KeyBefore(ps[n], rest[i]) {
        assert rest[i] in multiset(rest);
        assert rest[i] == p || rest[i] in ps[..n];
        NotBeforeAny(p, ps[n], p);
      }
      SnocOrdered(rest, ps[n]);
    } else {
      forall i | 0 <= i < |ps| ensures !KeyBefore(p, ps[i]) {
        NotBeforeAny(p, ps[n], ps[i]);
      }
      SnocOrdered(ps, p);
    }
  }

  lemma EmptyIsOrdered()
    ensures Ordered([])
  {
  }

  lemma {:induction false} SortedSpec(ps: seq<Proposal>)
    ensures Ordered(Sorted(ps)) && multiset(Sorted(ps)) == multiset(ps)
  {
    hide Ordered, KeyBefore, InsertInto;
    if ps == [] {
      assert Ordered([]) by { EmptyIsOrdered(); }
    } else {
      SortedSpec(ps[..|ps| - 1]);
      InsertAdds(Sorted(ps[..|ps| - 1]), ps[|ps| - 1]);
      InsertKeepsOrder(Sorted(ps[..|ps| - 1]), ps[|ps| - 1]);
      assert ps == ps[..|ps| - 1] + [ps[|ps| - 1]];
    }
  }

  /** The proposals of one instant, sorted. */
  method Evaluate(builtin: seq<Proposal>, rules: seq<CompiledRule>, holds: CompiledRule -> bool) returns (proposals: seq<Proposal>)
    requires |builtin| <= 1 && forall p :: p in builtin ==> p.key.Builtin?
    ensures proposals == Sorted(builtin + Matching(rules, holds))
    ensures Ordered(proposals) && multiset(proposals) == multiset(builtin) + multiset(Matching(rules, holds))
    ensures forall i, j :: 0 <= i < j < |proposals| ==>
              && Rank(proposals[i].severity) >= Rank(proposals[j].severity)
              && (proposals[i].severity == proposals[j].severity ==> IdOrZero(proposals[i]) <= IdOrZero(proposals[j]))
    ensures forall p :: p in proposals <==>
              || p in builtin
              || exists i :: 0 <= i < |rules| && holds(rules[i]) && p == Proposal(Rule(rules[i].id), rules[i].severity, rules[i].reason)
  {
    proposals := builtin;
    for n := 0 to |rules|
      invariant proposals == builtin + Matching(rules[..n], holds)
    {
      assert rules[..n + 1][..n] == rules[..n];
      if holds(rules[n]) {
        proposals := proposals + [ProposalOf(rules[n])];
      }
    }
    assert rules[..|rules|] == rules;
    SortedSpec(proposals);
    forall p ensures p in Sorted(proposals) <==>
      || p in builtin
      || exists i :: 0 <= i < |rules| && holds(rules[i]) && p == Proposal(Rule(rules[i].id), rules[i].severity, rules[i].reason)
    {
      MatchingMembers(rules, holds, p);
      assert p in Sorted(proposals) <==> p in multiset(Sorted(proposals));
      assert p in proposals <==> p in multiset(proposals);
    }
    proposals := Sorted(proposals);
  }

  /** No two of the proposals share an id. */
  predicate DistinctIds(ps: multiset<Proposal>) {
    forall a, b :: a in ps && b in ps ==> ps[a] == 1 && (IdOrZero(a) == IdOrZero(b) ==> a == b)
  }

  lemma LastAgrees(a: seq<Proposal>, b: seq<Proposal>)
    requires a != [] && b != [] && Ordered(a) && Ordered(b) && multiset(a) == multiset(b) && DistinctIds(multiset(a))
    ensures a[|a| - 1] == b[|b| - 1]
  {
    var x, y := a[|a| - 1], b[|b| - 1];
    assert x in multiset(b) && y in multiset(a);
    var i :| 0 <= i < |a| && a[i] == y;
    var j :| 0 <= j < |b| && b[j] == x;
    assert x != y ==> !KeyBefore(x, y) && !KeyBefore(y, x);
  }

  lemma WithoutLast(a: seq<Proposal>)
    requires a != [] && Ordered(a)
    ensures multiset(a[..|a| - 1]) == multiset(a) - multiset{a[|a| - 1]} && Ordered(a[..|a| - 1])
  {
    assert a == a[..|a| - 1] + [a[|a| - 1]];
  }

  lemma FewerStayDistinct(ps: multiset<Proposal>, p: Proposal)
    requires DistinctIds(ps)
    ensures DistinctIds(ps - multiset{p})
  {
    assert forall a :: a in ps - multiset{p} ==> a in ps && 1 <= (ps - multiset{p})[a] <= ps[a];
  }

  /** A collection without repeated ids has one order. */
  lemma {:induction false} OneOrder(a: seq<Proposal>, b: seq<Proposal>)
    requires |a| == |b| && Ordered(a) && Ordered(b) && multiset(a) == multiset(b) && DistinctIds(multiset(a))
    ensures a == b
    decreases |a|
  {
    hide KeyBefore, Ordered, DistinctIds;
    if a != [] {
      var n := |a| - 1;
      PrefixesAgree(a, b);
      OneOrder(a[..n], b[..n]);
      assert a == a[..n] + [a[n]] && b == b[..n] + [b[n]];
    }
  }

  lemma PrefixesAgree(a: seq<Proposal>, b: seq<Proposal>)
    requires |a| == |b| > 0 && Ordered(a) && Ordered(b) && multiset(a) == multiset(b) && DistinctIds(multiset(a))
    ensures
      var n := |a| - 1;
      && a[n] == b[n] && multiset(a[..n]) == multiset(b[..n])
      && Ordered(a[..n]) && Ordered(b[..n]) && DistinctIds(multiset(a[..n]))
  {
    hide KeyBefore, Ordered, DistinctIds;
    LastAgrees(a, b);
    WithoutLast(a);
    WithoutLast(b);
    FewerStayDistinct(multiset(a), a[|a| - 1]);
  }

  lemma {:induction false} MatchingJoin(a: seq<CompiledRule>, b: seq<CompiledRule>, holds: CompiledRule -> bool)
    ensures Matching(a + b, holds) == Matching(a, holds) + Matching(b, holds)
  {
    if b == [] {
      assert a + b == a;
    } else {
      MatchingJoin(a, b[..|b| - 1], holds);
      assert (a + b)[..|a + b| - 1] == a + b[..|b| - 1];
    }
  }

  lemma Cancel(x: multiset<CompiledRule>, y: multiset<CompiledRule>, z: multiset<CompiledRule>, r: CompiledRule)
    requires x + multiset{r} == y + multiset{r} + z
    ensures x == y + z
  {
    forall e ensures x[e] == (y + z)[e] {
      assert (x + multiset{r})[e] == (y + multiset{r} + z)[e];
    }
  }

  /** Reordering the rules reorders what matches. */
  lemma {:induction false} MatchingOfPermutation(a: seq<CompiledRule>, b: seq<CompiledRule>, holds: CompiledRule -> bool)
    requires multiset(a) == multiset(b)
    ensures multiset(Matching(a, holds)) == multiset(Matching(b, holds))
    decreases |a|
  {
    assert |multiset(a)| == |a| && |multiset(b)| == |b|;
    if a != [] {
      var n := |a| - 1;
      var r := a[n];
      assert a == a[..n] + [r];
      assert r in multiset(b);
      var j :| 0 <= j < |b| && b[j] == r;
      var rest := b[..j] + b[j + 1..];
      assert b == b[..j] + ([r] + b[j + 1..]);
      assert multiset(a) == multiset(a[..n]) + multiset{r};
      assert multiset(b) == multiset(b[..j]) + multiset{r} + multiset(b[j + 1..]);
      assert multiset(rest) == multiset(b[..j]) + multiset(b[j + 1..]);
      Cancel(multiset(a[..n]), multiset(b[..j]), multiset(b[j + 1..]), r);
      MatchingOfPermutation(a[..n], rest, holds);
      MatchingJoin(a[..n], [r], holds);
      MatchingJoin(b[..j], [r] + b[j + 1..], holds);
      MatchingJoin([r], b[j + 1..], holds);
      MatchingJoin(b[..j], b[j + 1..], holds);
    }
  }

  predicate DistinctPositive(rules: seq<CompiledRule>) {
    && (forall i :: 0 <= i < |rules| ==> rules[i].id > 0)
    && (forall i, j :: 0 <= i < j < |rules| ==> rules[i].id != rules[j].id)
  }

  /** Every match comes from a rule that holds, and every rule that holds matches. */
  lemma {:induction false} MatchingMembers(rules: seq<CompiledRule>, holds: CompiledRule -> bool, p: Proposal)
    ensures p in Matching(rules, holds) <==>
            exists i :: 0 <= i < |rules| && holds(rules[i]) && p == Proposal(Rule(rules[i].id), rules[i].severity, rules[i].reason)
  {
    if rules != [] {
      var n := |rules| - 1;
      MatchingMembers(rules[..n], holds, p);
      assert forall i :: 0 <= i < n ==> rules[..n][i] == rules[i];
    }
  }

  lemma MoreStayDistinct(ps: multiset<Proposal>, p: Proposal)
    requires DistinctIds(ps) && forall x :: x in ps ==> IdOrZero(x) != IdOrZero(p)
    ensures DistinctIds(ps + multiset{p})
  {
    assert p !in ps;
  }

  lemma {:induction false} DistinctMatches(builtin: seq<Proposal>, rules: seq<CompiledRule>, holds: CompiledRule -> bool)
    requires |builtin| <= 1 && (forall p :: p in builtin ==> p.key.Builtin?) && DistinctPositive(rules)
    ensures DistinctIds(multiset(builtin + Matching(rules, holds)))
  {
    if rules == [] {
      assert builtin + Matching(rules, holds) == builtin;
    } else {
      var n := |rules| - 1;
      DistinctMatches(builtin, rules[..n], holds);
      if holds(rules[n]) {
        NewIdAmong(builtin, rules, holds);
        hide DistinctIds, DistinctPositive;
        var before := builtin + Matching(rules[..n], holds);
        assert builtin + Matching(rules, holds) == before + [ProposalOf(rules[n])];
        MoreStayDistinct(multiset(before), ProposalOf(rules[n]));
      }
    }
  }

  /** The last rule's id is none of the ids before it. */
  lemma NewIdAmong(builtin: seq<Proposal>, rules: seq<CompiledRule>, holds: CompiledRule -> bool)
    requires (forall p :: p in builtin ==> p.key.Builtin?) && DistinctPositive(rules) && rules != []
    ensures
      var n := |rules| - 1;
      forall x :: x in multiset(builtin + Matching(rules[..n], holds)) ==> IdOrZero(x) != IdOrZero(ProposalOf(rules[n]))
  {
    hide Matching;
    var n := |rules| - 1;
    var before := Matching(rules[..n], holds);
    forall x | x in multiset(builtin + before) ensures IdOrZero(x) != IdOrZero(ProposalOf(rules[n])) {
      assert x in builtin || x in before;
      MatchingMembers(rules[..n], holds, x);
    }
  }

  /** evaluate returns the same tuple whatever order the rules come in, when their ids are
      distinct and positive: it is the built-in match and exactly the rules that hold, highest
      severity first and then by id. */
  lemma EvaluateIgnoresOrder(builtin: seq<Proposal>, a: seq<CompiledRule>, b: seq<CompiledRule>, holds: CompiledRule -> bool)
    requires |builtin| <= 1 && (forall p :: p in builtin ==> p.key.Builtin?)
    requires DistinctPositive(a) && multiset(a) == multiset(b)
    ensures Sorted(builtin + Matching(a, holds)) == Sorted(builtin + Matching(b, holds))
  {
    var x, y := builtin + Matching(a, holds), builtin + Matching(b, holds);
    SortedSpec(x);
    SortedSpec(y);
    MatchingOfPermutation(a, b, holds);
    DistinctMatches(builtin, a, holds);
    assert |multiset(Sorted(x))| == |Sorted(x)| && |multiset(Sorted(y))| == |Sorted(y)|;
    OneOrder(Sorted(x), Sorted(y));
  }

  // ----- What the engine reads -----

  /** The world a cycle evaluates, when matching is the built-in match and the rules that hold. */
  function Judging(w: World, builtin: Icao -> seq<Proposal>, rules: seq<CompiledRule>, holds: Icao -> CompiledRule -> bool): World {
    w.(matches := icao => Sorted(builtin(icao) + Matching(rules, holds(icao))))
  }

  /** The order the rules come in reaches nothing the engine does: states, what is owed and so
      every batch are the same. */
  lemma {:induction false} EngineIgnoresRuleOrder(
    states: States, adopted: map<int, map<Key, Severity>>, w: World, order: seq<Icao>,
    builtin: Icao -> seq<Proposal>, a: seq<CompiledRule>, b: seq<CompiledRule>, holds: Icao -> CompiledRule -> bool)
    requires DistinctPositive(a) && multiset(a) == multiset(b)
    requires forall icao :: |builtin(icao)| <= 1 && forall p :: p in builtin(icao) ==> p.key.Builtin?
    ensures Alerts.Evaluate(states, adopted, Judging(w, builtin, a, holds), order)
         == Alerts.Evaluate(states, adopted, Judging(w, builtin, b, holds), order)
    decreases |order|
  {
    hide Propose, StateFor, Paired, Sorted;
    if order != [] {
      var n := |order| - 1;
      EngineIgnoresRuleOrder(states, adopted, w, order[..n], builtin, a, b, holds);
      var before := Alerts.Evaluate(states, adopted, Judging(w, builtin, a, holds), order[..n]);
      SameScope(before.states, adopted, w, builtin, a, b, holds, order[n]);
      EvaluateIgnoresOrder(builtin(order[n]), a, b, holds(order[n]));
    }
  }

  lemma SameScope(states: States, adopted: map<int, map<Key, Severity>>, w: World, builtin: Icao -> seq<Proposal>,
                  a: seq<CompiledRule>, b: seq<CompiledRule>, holds: Icao -> CompiledRule -> bool, icao: Icao)
    ensures StateFor(states, adopted, Judging(w, builtin, a, holds), icao) == StateFor(states, adopted, Judging(w, builtin, b, holds), icao)
  {
  }

  /** And what a rule set proposes never carries a key twice, as the engine's memory expects. */
  lemma EvaluationKeysAreDistinct(builtin: seq<Proposal>, rules: seq<CompiledRule>, holds: CompiledRule -> bool)
    requires |builtin| <= 1 && (forall p :: p in builtin ==> p.key.Builtin?) && DistinctPositive(rules)
    ensures DistinctKeys(Sorted(builtin + Matching(rules, holds)))
  {
    var all := builtin + Matching(rules, holds);
    DistinctMatches(builtin, rules, holds);
    SortedSpec(all);
    hide Sorted, Matching;
    NoRepeats(Sorted(all));
  }

  lemma NoRepeats(ps: seq<Proposal>)
    requires DistinctIds(multiset(ps))
    ensures DistinctKeys(ps)
  {
    forall i, j | 0 <= i < j < |ps| ensures ps[i].key != ps[j].key {
      if ps[i] == ps[j] {
        TwicePresent(ps, i, j);
      }
      assert ps[i] in multiset(ps) && ps[j] in multiset(ps);
    }
  }

  lemma TwicePresent(ps: seq<Proposal>, i: nat, j: nat)
    requires i < j < |ps| && ps[i] == ps[j]
    ensures multiset(ps)[ps[i]] >= 2
  {
    assert ps == ps[..j] + ([ps[j]] + ps[j + 1..]);
    assert ps[..j][i] == ps[i] && ps[i] in multiset(ps[..j]);
  }
}
