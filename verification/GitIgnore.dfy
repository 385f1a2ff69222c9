/** The Git half of the ignore engine: the reverse evaluator of collected rules
    and the declarative decision it computes. */
module GitIgnore {
  import opened Globs
  import opened IgnorePatterns

  datatype Verdict = Undecided | Ignored | Included

  /** gitignore(5), "PATTERN FORMAT": the last rule that names a node decides it. */
  function NodeVerdict(d: Dialect, rules: seq<IgnorePattern>, path: Path, depth: nat): Verdict
    requires depth < |path|
  {
    if |rules| == 0 then Undecided
    else
      var last := rules[|rules| - 1];
      if MatchesNode(d, last, path, depth) then (if last.negated then Included else Ignored)
      else NodeVerdict(d, rules[..|rules| - 1], path, depth)
  }

  /** A path is ignored when the last word on it or on a directory above it is "ignore". */
  ghost predicate GitIgnored(d: Dialect, rules: seq<IgnorePattern>, path: Path) {
    exists depth: nat :: depth < |path| && NodeVerdict(d, rules, path, depth) == Ignored
  }

  // Some rule names some node of the path.
  ghost predicate GitMatched(d: Dialect, rules: seq<IgnorePattern>, path: Path) {
    exists depth: nat :: depth < |path| && NodeVerdict(d, rules, path, depth) != Undecided
  }

  ghost predicate AllCollected(d: Dialect, rules: seq<IgnorePattern>) {
    forall i :: 0 <= i < |rules| ==> Collected(d, rules[i])
  }

  /** A node stays undecided exactly while no rule names it. */
  lemma {:induction false} UndecidedMeansUnnamed(d: Dialect, rules: seq<IgnorePattern>, path: Path, depth: nat)
    requires depth < |path|
    ensures NodeVerdict(d, rules, path, depth) == Undecided
       <==> forall i :: 0 <= i < |rules| ==> !MatchesNode(d, rules[i], path, depth)
  {
    if |rules| > 0 {
      UndecidedMeansUnnamed(d, rules[..|rules| - 1], path, depth);
    }
  }

  /** Rules placed later overrule the ones before them. */
  lemma {:induction false} LaterRulesDecide(
    d: Dialect, early: seq<IgnorePattern>, late: seq<IgnorePattern>, path: Path, depth: nat)
    requires depth < |path|
    ensures NodeVerdict(d, early + late, path, depth)
         == if NodeVerdict(d, late, path, depth) != Undecided then NodeVerdict(d, late, path, depth)
            else NodeVerdict(d, early, path, depth)
  {
    if |late| == 0 {
      assert early + late == early;
    } else {
      var all := early + late;
      assert all[..|all| - 1] == early + late[..|late| - 1];
      LaterRulesDecide(d, early, late[..|late| - 1], path, depth);
    }
  }

  // What one rule adds in front of rules that decide `late`.
  lemma EarlierRule(d: Dialect, rule: IgnorePattern, late: seq<IgnorePattern>, path: Path, depth: nat)
    requires depth < |path|
    ensures NodeVerdict(d, [rule] + late, path, depth)
         == if NodeVerdict(d, late, path, depth) != Undecided then NodeVerdict(d, late, path, depth)
            else if !MatchesNode(d, rule, path, depth) then Undecided
            else if rule.negated then Included else Ignored
  {
    LaterRulesDecide(d, [rule], late, path, depth);
    assert [rule][..0] == [];
  }

  /** Rule `i` has the last word on a node. */
  ghost predicate HasLastWord(d: Dialect, rules: seq<IgnorePattern>, path: Path, depth: nat, i: int)
    requires depth < |path|
  {
    && 0 <= i < |rules| && MatchesNode(d, rules[i], path, depth)
    && forall j :: i < j < |rules| ==> !MatchesNode(d, rules[j], path, depth)
  }

  lemma {:induction false} VerdictIsLastWord(d: Dialect, rules: seq<IgnorePattern>, path: Path, depth: nat, i: nat)
    requires depth < |path| && HasLastWord(d, rules, path, depth, i)
    ensures NodeVerdict(d, rules, path, depth) == if rules[i].negated then Included else Ignored
  {
    hide MatchesNode;
    if i < |rules| - 1 {
      VerdictIsLastWord(d, rules[..|rules| - 1], path, depth, i);
    }
  }

  lemma {:induction false} LastWordExists(d: Dialect, rules: seq<IgnorePattern>, path: Path, depth: nat)
    requires depth < |path| && NodeVerdict(d, rules, path, depth) != Undecided
    ensures exists i :: HasLastWord(d, rules, path, depth, i)
  {
    hide MatchesNode;
    var last := |rules| - 1;
    if MatchesNode(d, rules[last], path, depth) {
      assert HasLastWord(d, rules, path, depth, last);
    } else {
      LastWordExists(d, rules[..last], path, depth);
      var i :| HasLastWord(d, rules[..last], path, depth, i);
      assert HasLastWord(d, rules, path, depth, i);
    }
  }

  /** Ignored exactly when a positive rule has the last word on the path or on a
      directory above it; spoken about exactly when any rule names any of them. */
  lemma GitDecisionIsLastWord(d: Dialect, rules: seq<IgnorePattern>, path: Path)
    ensures GitIgnored(d, rules, path) <==>
      exists depth: nat, i :: depth < |path| && HasLastWord(d, rules, path, depth, i) && !rules[i].negated
    ensures GitMatched(d, rules, path) <==>
      exists depth: nat, i :: depth < |path| && 0 <= i < |rules| && MatchesNode(d, rules[i], path, depth)
  {
    hide MatchesNode, NodeVerdict;
    if depth: nat, i :| depth < |path| && HasLastWord(d, rules, path, depth, i) && !rules[i].negated {
      VerdictIsLastWord(d, rules, path, depth, i);
    }
    if GitIgnored(d, rules, path) {
      var depth: nat :| depth < |path| && NodeVerdict(d, rules, path, depth) == Ignored;
      LastWordExists(d, rules, path, depth);
      var i :| HasLastWord(d, rules, path, depth, i);
      VerdictIsLastWord(d, rules, path, depth, i);
    }
    if GitMatched(d, rules, path) {
      var depth: nat :| depth < |path| && NodeVerdict(d, rules, path, depth) != Undecided;
      UndecidedMeansUnnamed(d, rules, path, depth);
    }
    if depth: nat, i :| depth < |path| && 0 <= i < |rules| && MatchesNode(d, rules[i], path, depth) {
      UndecidedMeansUnnamed(d, rules, path, depth);
    }
  }

  // The dominant .gitignore shape: one component, at any depth.
  predicate RootBasename(p: IgnorePattern) {
    var node := NodeGlob(p);
    |node| == 2 && node[0].DoubleStar? && !node[1].DoubleStar?
  }

  /** A basename rule names a node exactly when it accepts the node's last component. */
  lemma {:induction false} BasenameMatches(d: Dialect, component: GlobSegment, node: Path)
    requires !component.DoubleStar?
    ensures Matches(d, [DoubleStar, component], node)
       <==> |node| > 0 && Accepts(d, component, node[|node| - 1])
  {
    var glob := [DoubleStar, component];
    assert glob == [DoubleStar] + [component];
    if Matches(d, glob, node) {
      var k := MatchesSplit(d, [DoubleStar], [component], node);
      assert [component][1..] == [];
      assert node[k..][1..] == [];
      assert node[k..][0] == node[k];
    }
    if |node| > 0 && Accepts(d, component, node[|node| - 1]) {
      var last := |node| - 1;
      DoubleStarMatchesAll(d, node[..last]);
      assert [component][1..] == [] && node[last..][1..] == [];
      MatchesJoin(d, [DoubleStar], [component], node[..last], node[last..]);
      assert node[..last] + node[last..] == node;
    }
  }

  lemma RootBasenameMatchesNode(d: Dialect, p: IgnorePattern, path: Path, depth: nat)
    requires Collected(d, p) && RootBasename(p) && depth < |path|
    ensures MatchesNode(d, p, path, depth)
       <==> (p.directoryOnly ==> depth < |path| - 1)
            && Accepts(d, NodeGlob(p)[1], Seen(d, p, path)[depth])
  {
    var node := NodeGlob(p);
    assert node[1] == p.glob[p.nodeEnd - 1];
    assert node == [DoubleStar, node[1]];
    BasenameMatches(d, node[1], Seen(d, p, path)[..depth + 1]);
  }

  function Depth(depth: nat): bv64
    requires depth < 64
  {
    1 << depth
  }

  lemma DepthBits(word: bv64, set': nat, read: nat)
    requires set' < 64 && read < 64
    ensures ((word | Depth(set')) & Depth(read) != 0) <==> (set' == read || word & Depth(read) != 0)
  {
  }

  // Path components that survive normalisation.
  function Cleaned(raw: Path): Path {
    if |raw| == 0 then []
    else Cleaned(raw[..|raw| - 1]) + (if raw[|raw| - 1] == "" || raw[|raw| - 1] == "." then [] else [raw[|raw| - 1]])
  }

  // The depth set as it is stored: a 64-bit word, and a slice for deeper paths.
  predicate IsResolved(word: bv64, overflow: seq<bool>, depth: nat) {
    if depth < 64 then word & Depth(depth) != 0
    else depth - 64 < |overflow| && overflow[depth - 64]
  }

  ghost predicate Represents(word: bv64, overflow: seq<bool>, nodes: nat, depths: set<nat>) {
    forall depth: nat {:trigger IsResolved(word, overflow, depth)} ::
      depth < nodes ==> (IsResolved(word, overflow, depth) <==> depth in depths)
  }

  ghost function Below(n: nat): (r: set<nat>)
    ensures |r| == n
    ensures forall i: nat :: i in r <==> i < n
  {
    if n == 0 then {} else Below(n - 1) + {n - 1}
  }

  lemma ResolveInWord(word: bv64, overflow: seq<bool>, nodes: nat, depths: set<nat>, depth: nat)
    requires depth < 64 && Represents(word, overflow, nodes, depths)
    ensures Represents(word | Depth(depth), overflow, nodes, depths + {depth})
  {
    forall other: nat | other < nodes
      ensures IsResolved(word | Depth(depth), overflow, other) <==> other in depths + {depth}
    {
      assert IsResolved(word, overflow, other) <==> other in depths;
      if other < 64 {
        DepthBits(word, depth, other);
      }
    }
  }

  lemma ResolveInOverflow(
    word: bv64, overflow: seq<bool>, wider: seq<bool>, nodes: nat, depths: set<nat>, depth: nat)
    requires 64 <= depth && depth - 64 < |wider| && |overflow| <= |wider|
    requires forall i :: 0 <= i < |overflow| ==> wider[i] == overflow[i]
    requires forall i :: |overflow| <= i < |wider| ==> !wider[i]
    requires Represents(word, overflow, nodes, depths)
    ensures Represents(word, wider[depth - 64 := true], nodes, depths + {depth})
  {
    forall other: nat | other < nodes
      ensures IsResolved(word, wider[depth - 64 := true], other) <==> other in depths + {depth}
    {
      assert IsResolved(word, overflow, other) <==> other in depths;
    }
  }

  /** Progress of one rule over the nodes `named` so far: a negation has settled
      them, a positive rule has found all of them settled already, and `matched`
      remembers whether any of them was still open. */
  ghost predicate Progress(
    negated: bool, named: set<nat>, before: set<nat>, now: set<nat>, matchedBefore: bool, matchedNow: bool)
  {
    && now == before + (if negated then named else {})
    && (!negated ==> named <= before)
    && (matchedNow <==> matchedBefore || !(named <= before))
  }

  /** Evaluates one contiguous group of collected rules against every node of
      one path, last rule first. A node is resolved once a negation has had the
      last word on it; a positive last word ends the evaluation. */
  class PathState {
    const d: Dialect
    const path: Path
    const fileDepth: int
    var lowerPath: Path
    var unresolved: int
    var resolvedDepths: bv64
    var resolvedDepthsOverflow: seq<bool>
    var matched: bool
    ghost var resolved: set<nat>

    constructor (d: Dialect, raw: Path)
      ensures this.d == d && path == Cleaned(raw)
      ensures Valid() && resolved == {} && !matched
    {
      this.d := d;
      var cleaned := Cleaned(raw);
      path := cleaned;
      fileDepth := |cleaned| - 1;
      unresolved := |cleaned|;
      lowerPath := [];
      resolvedDepths := 0;
      resolvedDepthsOverflow := [];
      matched := false;
      resolved := {};
    }

    ghost predicate Valid()
      reads this
    {
      && fileDepth == |path| - 1
      && resolved <= Below(|path|)
      && unresolved == |path| - |resolved|
      && Represents(resolvedDepths, resolvedDepthsOverflow, |path|, resolved)
      && (lowerPath == [] || lowerPath == FoldPath(d, path))
    }

    // The nodes at `from` and deeper that a rule names.
    ghost function Named(p: IgnorePattern, from: int): (r: set<nat>)
    {
      set depth: nat | depth in Below(|path|) && from <= depth && MatchesNode(d, p, path, depth)
    }

    lemma NamedStep(p: IgnorePattern, from: nat)
      requires from < |path|
      ensures Named(p, from) == Named(p, from + 1) + (if MatchesNode(d, p, path, from) then {from} else {})
    {
    }

    lemma NamedNone(p: IgnorePattern)
      ensures Named(p, |path|) == {}
    {
    }

    method DepthResolved(depth: nat) returns (r: bool)
      requires Valid() && depth < |path|
      ensures r <==> depth in resolved
    {
      r := IsResolved(resolvedDepths, resolvedDepthsOverflow, depth);
    }

    method ResolveDepth(depth: nat)
      requires Valid() && depth < |path|
      modifies `unresolved, `resolvedDepths, `resolvedDepthsOverflow, `resolved
      ensures Valid() && resolved == old(resolved) + {depth}
    {
      hide IsResolved, Depth;
      var already := DepthResolved(depth);
      if already {
        return;
      }
      unresolved := unresolved - 1;
      if depth < 64 {
        ResolveInWord(resolvedDepths, resolvedDepthsOverflow, |path|, resolved, depth);
        resolvedDepths := resolvedDepths | Depth(depth);
      } else {
        var index := depth - 64;
        var wider := resolvedDepthsOverflow;
        if index >= |wider| {
          wider := wider + seq(index - |wider| + 1, _ => false);
        }
        ResolveInOverflow(resolvedDepths, resolvedDepthsOverflow, wider, |path|, resolved, depth);
        resolvedDepthsOverflow := wider[index := true];
      }
      resolved := resolved + {depth};
    }

    /** Records one match; true means the match is a final positive decision. */
    method ApplyDepth(depth: nat, negated: bool) returns (ignored: bool)
      requires Valid() && depth < |path|
      modifies `matched, `unresolved, `resolvedDepths, `resolvedDepthsOverflow, `resolved
      ensures Valid() && matched
      ensures ignored == !negated
      ensures resolved == if negated then old(resolved) + {depth} else old(resolved)
    {
      matched := true;
      if !negated {
        return true;
      }
      ResolveDepth(depth);
      return false;
    }

    lemma NoneUnresolved()
      requires Valid() && unresolved <= 0
      ensures resolved == Below(|path|)
    {
      assert |Below(|path|) - resolved| == 0;
    }

    // The gate: without a match of the projection no ancestor is named.
    lemma NoAncestor(p: IgnorePattern)
      requires Collected(d, p) && |path| > 0 && !Matches(d, p.glob, Seen(d, p, path))
      ensures Named(p, 0) == Named(p, |path| - 1)
    {
      forall t: nat | t < |path| - 1 ensures !MatchesNode(d, p, path, t) {
        if MatchesNode(d, p, path, t) {
          ProjectionCoversNode(d, p, Seen(d, p, path), t + 1);
        }
      }
    }

    // A node the rule names and no later rule settled.
    lemma OpenIsVisited(negated: bool, named: set<nat>, node: nat, before: set<nat>, now: set<nat>, matchedBefore: bool, matchedNow: bool)
      requires Progress(negated, named, before, now, matchedBefore, matchedNow) && node !in now
      ensures negated ==> Progress(negated, named + {node}, before, now + {node}, matchedBefore, true)
      ensures !negated ==> !(named + {node} <= before) && now == before
    {
      assert node in named + {node};
      assert now + {node} == before + named + {node};
    }

    // One it does not name, or that is settled.
    lemma PassedOver(negated: bool, named: set<nat>, node: nat, names: bool, before: set<nat>, now: set<nat>, matchedBefore: bool, matchedNow: bool)
      requires Progress(negated, named, before, now, matchedBefore, matchedNow) && node !in named && (names ==> node in now)
      ensures var more := named + (if names then {node} else {});
        Progress(negated, more, before, now, matchedBefore, matchedNow) && (!negated ==> more <= before)
    {}

    /** Offers one node to a rule. Reports whether the rule has the positive
        last word on it; a negation settles the node instead. */
    method Visit(p: IgnorePattern, depth: nat, names: bool, ghost before: set<nat>, ghost matchedBefore: bool)
      returns (ignored: bool)
      requires Valid() && depth < |path| && names == MatchesNode(d, p, path, depth)
      requires Progress(p.negated, Named(p, depth + 1), before, resolved, matchedBefore, matched)
      modifies `matched, `unresolved, `resolvedDepths, `resolvedDepthsOverflow, `resolved
      ensures Valid()
      ensures ignored <==> !p.negated && !(Named(p, depth) <= before)
      ensures ignored ==> matched && resolved == before
      ensures !ignored ==> Progress(p.negated, Named(p, depth), before, resolved, matchedBefore, matched)
    {
      hide MatchesNode, Represents, IsResolved, Progress;
      NamedStep(p, depth);
      ghost var now, matchedNow, named := resolved, matched, Named(p, depth + 1);
      assert depth !in named;
      hide Named;
      var settled := DepthResolved(depth);
      if !settled && names {
        OpenIsVisited(p.negated, named, depth, before, now, matchedBefore, matchedNow);
        ignored := ApplyDepth(depth, p.negated);
      } else {
        PassedOver(p.negated, named, depth, names, before, now, matchedBefore, matchedNow);
        ignored := false;
      }
    }

    /** Tests one component of the path instead of a growing prefix of it. */
    method ApplyRootBasename(p: IgnorePattern) returns (ignored: bool)
      requires Valid() && Collected(d, p) && RootBasename(p) && fileDepth >= 0
      modifies `matched, `unresolved, `resolvedDepths, `resolvedDepthsOverflow, `resolved
      ensures Valid()
      ensures ignored <==> !p.negated && !(Named(p, 0) <= old(resolved))
      ensures ignored ==> matched && resolved == old(resolved)
      ensures !ignored ==> Progress(p.negated, Named(p, 0), old(resolved), resolved, old(matched), matched)
    {
      var seen := Seen(d, p, path);
      var component := NodeGlob(p)[1];
      ghost var before, matchedBefore := resolved, matched;
      var depth := fileDepth;
      NamedNone(p);
      RootBasenameMatchesNode(d, p, path, depth);
      ignored := Visit(p, depth, !p.directoryOnly && Accepts(d, component, seen[depth]), before, matchedBefore);
      if ignored {
        assert Named(p, depth) <= Named(p, 0);
        return;
      }
      if unresolved == 0 {
        AllSettled(p, depth, before, matchedBefore);
        return;
      }
      depth := depth - 1;
      if depth < 0 {
        return;
      }
      var literal := component.Literal?;
      if !literal && !Matches(d, p.glob, seen) {
        NoAncestor(p);
        return;
      }
      while depth >= 0 && unresolved > 0
        invariant -1 <= depth < fileDepth
        invariant Valid()
        invariant Progress(p.negated, Named(p, depth + 1), before, resolved, matchedBefore, matched)
      {
        RootBasenameMatchesNode(d, p, path, depth);
        ignored := Visit(p, depth, if literal then seen[depth] == component.text else Accepts(d, component, seen[depth]),
                         before, matchedBefore);
        if ignored {
          assert Named(p, depth) <= Named(p, 0);
          return;
        }
        depth := depth - 1;
      }
      if depth >= 0 {
        AllSettled(p, depth + 1, before, matchedBefore);
      }
      return false;
    }

    // With every node settled, the nodes not yet offered change nothing.
    lemma AllSettled(p: IgnorePattern, from: nat, before: set<nat>, matchedBefore: bool)
      requires Valid() && unresolved <= 0
      requires Progress(p.negated, Named(p, from), before, resolved, matchedBefore, matched)
      ensures Progress(p.negated, Named(p, 0), before, resolved, matchedBefore, matched)
    {
      NoneUnresolved();
      assert Named(p, from) <= Named(p, 0) <= resolved;
    }

    lemma ProgressTells(negated: bool, named: set<nat>, before: set<nat>, now: set<nat>, matchedBefore: bool, matchedNow: bool)
      requires Progress(negated, named, before, now, matchedBefore, matchedNow)
      ensures !negated ==> named <= before
    {}

    lemma NoProgress(negated: bool, before: set<nat>, matchedBefore: bool)
      ensures Progress(negated, {}, before, before, matchedBefore, matchedBefore)
    {}

    /** Tests the target first and then, behind the projection gate, its ancestors upwards. */
    method ApplyNodes(p: IgnorePattern, seen: Path) returns (ignored: bool)
      requires Valid() && Collected(d, p) && fileDepth >= 0 && seen == Seen(d, p, path)
      modifies `matched, `unresolved, `resolvedDepths, `resolvedDepthsOverflow, `resolved
      ensures Valid()
      ensures ignored <==> !p.negated && !(Named(p, 0) <= old(resolved))
      ensures ignored ==> matched && resolved == old(resolved)
      ensures !ignored ==> Progress(p.negated, Named(p, 0), old(resolved), resolved, old(matched), matched)
    {
      hide Matches, Represents, IsResolved, Progress;
      ghost var before, matchedBefore := resolved, matched;
      NamedNone(p);
      NoProgress(p.negated, before, matchedBefore);
      assert seen[..fileDepth + 1] == seen;
      ignored := Visit(p, fileDepth, !p.directoryOnly && NodeMatches(d, p, seen), before, matchedBefore);
      if ignored {
        assert Named(p, fileDepth) <= Named(p, 0);
        return;
      }
      if unresolved == 0 {
        AllSettled(p, fileDepth, before, matchedBefore);
        return;
      }
      if !Matches(d, p.glob, seen) {
        NoAncestor(p);
        return;
      }
      var depth := fileDepth - 1;
      while depth >= 0
        invariant -1 <= depth < fileDepth
        invariant Valid()
        invariant Progress(p.negated, Named(p, depth + 1), before, resolved, matchedBefore, matched)
      {
        ignored := Visit(p, depth, NodeMatches(d, p, seen[..depth + 1]), before, matchedBefore);
        if ignored {
          assert Named(p, depth) <= Named(p, 0);
          return;
        }
        if unresolved == 0 {
          AllSettled(p, depth, before, matchedBefore);
          return;
        }
        depth := depth - 1;
      }
      ProgressTells(p.negated, Named(p, 0), before, resolved, matchedBefore, matched);
      return false;
    }

    /** Applies one rule to every node: true when the rule has the positive last
        word on a node no later rule settled; otherwise a negation settles
        exactly the nodes it names. */
    method Apply(p: IgnorePattern) returns (ignored: bool)
      requires Valid() && Collected(d, p)
      modifies this
      ensures Valid()
      ensures ignored <==> !p.negated && !(Named(p, 0) <= old(resolved))
      ensures ignored ==> matched && resolved == old(resolved)
      ensures !ignored ==> Progress(p.negated, Named(p, 0), old(resolved), resolved, old(matched), matched)
    {
      if fileDepth < 0 {
        NamedNone(p);
        return false;
      }
      var seen := path;
      if p.caseInsensitive {
        if lowerPath == [] {
          lowerPath := FoldPath(d, path);
        }
        seen := lowerPath;
      }
      if RootBasename(p) {
        ignored := ApplyRootBasename(p);
      } else {
        ignored := ApplyNodes(p, seen);
      }
    }

    // The nodes the rules decide.
    ghost function Decided(rules: seq<IgnorePattern>): set<nat> {
      set depth: nat | depth in Below(|path|) && NodeVerdict(d, rules, path, depth) != Undecided
    }

    // Of those, the nodes decided to be ignored.
    ghost function IgnoredNodes(rules: seq<IgnorePattern>): set<nat> {
      set depth: nat | depth in Below(|path|) && NodeVerdict(d, rules, path, depth) == Ignored
    }

    // One more rule in front: what it names beyond the settled nodes is its own decision.
    lemma Prepend(rule: IgnorePattern, late: seq<IgnorePattern>)
      ensures Decided([rule] + late) == Decided(late) + Named(rule, 0)
      ensures IgnoredNodes([rule] + late)
           == IgnoredNodes(late) + (if rule.negated then {} else Named(rule, 0) - Decided(late))
    {
      hide MatchesNode, NodeVerdict;
      var mine := if rule.negated then {} else Named(rule, 0) - Decided(late);
      forall depth: nat
        ensures depth in Decided([rule] + late) <==> depth in Decided(late) + Named(rule, 0)
        ensures depth in IgnoredNodes([rule] + late) <==> depth in IgnoredNodes(late) + mine
      {
        if depth < |path| {
          EarlierRule(d, rule, late, path, depth);
        }
      }
    }

    // Decisions of later rules stand whatever precedes them.
    lemma Settled(early: seq<IgnorePattern>, late: seq<IgnorePattern>)
      ensures IgnoredNodes(late) <= IgnoredNodes(early + late)
      ensures Decided(late) <= Decided(early + late)
      ensures Decided(late) == Below(|path|) ==> IgnoredNodes(late) == IgnoredNodes(early + late)
      ensures Decided(late) == Below(|path|) ==> Decided(late) == Decided(early + late)
    {
      forall depth: nat | depth < |path|
        ensures NodeVerdict(d, late, path, depth) != Undecided ==>
                  NodeVerdict(d, early + late, path, depth) == NodeVerdict(d, late, path, depth)
      {
        LaterRulesDecide(d, early, late, path, depth);
      }
    }

    lemma NoRules()
      ensures Decided([]) == {} && IgnoredNodes([]) == {}
    {
    }

    lemma DecisionSets(rules: seq<IgnorePattern>)
      ensures GitIgnored(d, rules, path) <==> IgnoredNodes(rules) != {}
      ensures GitMatched(d, rules, path) <==> Decided(rules) != {}
    {
      hide MatchesNode, NodeVerdict;
      assert forall depth: nat :: depth in IgnoredNodes(rules) <==> depth < |path| && NodeVerdict(d, rules, path, depth) == Ignored;
      assert forall depth: nat :: depth in Decided(rules) <==> depth < |path| && NodeVerdict(d, rules, path, depth) != Undecided;
    }

    // A rule that did not end the evaluation leaves the decisions of the longer list.
    lemma RuleIsDecided(rule: IgnorePattern, late: seq<IgnorePattern>, now: set<nat>, matchedBefore: bool, matchedNow: bool)
      requires IgnoredNodes(late) == {} && (matchedBefore <==> Decided(late) != {})
      requires Progress(rule.negated, Named(rule, 0), Decided(late), now, matchedBefore, matchedNow)
      ensures now == Decided([rule] + late) && IgnoredNodes([rule] + late) == {}
      ensures matchedNow <==> now != {}
    {
      Prepend(rule, late);
      hide Decided, IgnoredNodes, Named;
    }

    // One that did has the last word on a node.
    lemma RuleIsFinal(rule: IgnorePattern, late: seq<IgnorePattern>)
      requires !rule.negated && !(Named(rule, 0) <= Decided(late))
      ensures IgnoredNodes([rule] + late) != {} && Decided([rule] + late) != {}
    {
      Prepend(rule, late);
      hide Decided, IgnoredNodes, Named;
      var depth :| depth in Named(rule, 0) && depth !in Decided(late);
      assert depth in IgnoredNodes([rule] + late) && depth in Decided([rule] + late);
    }

    /** The reverse evaluator returns exactly the declarative decision. */
    method Evaluate(rules: seq<IgnorePattern>) returns (ignored: bool)
      requires Valid() && resolved == {} && !matched && AllCollected(d, rules)
      modifies this
      ensures ignored <==> GitIgnored(d, rules, path)
      ensures matched <==> GitMatched(d, rules, path)
    {
      hide MatchesNode, NodeVerdict, Decided, IgnoredNodes, Named, Progress, GitIgnored, GitMatched, Represents, Collected;
      var index := |rules|;
      DecisionSets(rules);
      NoRules();
      assert rules[index..] == [];
      while index > 0 && unresolved > 0
        invariant 0 <= index <= |rules| && Valid()
        invariant resolved == Decided(rules[index..]) && IgnoredNodes(rules[index..]) == {}
        invariant matched <==> resolved != {}
      {
        index := index - 1;
        assert rules[index..] == [rules[index]] + rules[index + 1..];
        assert rules == rules[..index] + rules[index..];
        ghost var before := matched;
        ignored := Apply(rules[index]);
        if ignored {
          RuleIsFinal(rules[index], rules[index + 1..]);
          Settled(rules[..index], rules[index..]);
          return;
        }
        RuleIsDecided(rules[index], rules[index + 1..], resolved, before, matched);
      }
      assert rules == rules[..index] + rules[index..];
      Settled(rules[..index], rules[index..]);
      if index > 0 {
        NoneUnresolved();
      } else {
        assert rules[0..] == rules;
      }
      return false;
    }
  }
}
