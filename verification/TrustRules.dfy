// The trust rules of the Qwen host (cmd/pitot/doctor_qwen.go, qwenTrustDecision): a fold
// over a map in no particular order, against a statement about all the rules.
module TrustRules {
  import opened Envelopes

  const TRUST_FOLDER := "TRUST_FOLDER"
  const TRUST_PARENT := "TRUST_PARENT"
  const DO_NOT_TRUST := "DO_NOT_TRUST"

  // An absolute path as its components; the root has none.
  type Path = seq<string>

  // Which rule paths are absolute, and where each leads once symbolic links are
  // followed, where they can be.
  datatype Files = Files(isAbs: string -> bool, resolve: string -> Path)

  // A rule's value, when it is a string.
  type Rules = map<string, Option<string>>

  predicate ValidRule(f: Files, path: string, level: Option<string>) {
    f.isAbs(path) && (level == Some(TRUST_FOLDER) || level == Some(TRUST_PARENT) || level == Some(DO_NOT_TRUST))
  }

  function Parent(p: Path): Path {
    if p == [] then [] else p[..|p| - 1]
  }

  // The directory a rule is about.
  function Scope(f: Files, path: string, level: Option<string>): Path {
    if level == Some(TRUST_PARENT) then Parent(f.resolve(path)) else f.resolve(path)
  }

  predicate Covers(scope: Path, project: Path) {
    scope <= project
  }

  // The parts of the path text between slashes: "/" and "/a" both have two.
  function Depth(scope: Path): nat {
    if scope == [] then 2 else |scope| + 1
  }

  predicate Applies(f: Files, project: Path, rules: Rules, path: string) {
    path in rules && Covers(Scope(f, path, rules[path]), project)
  }

  predicate Allows(rules: Rules, path: string) {
    path in rules && rules[path] != Some(DO_NOT_TRUST)
  }

  function RuleDepth(f: Files, rules: Rules, path: string): nat
    requires path in rules
  {
    Depth(Scope(f, path, rules[path]))
  }

  // No applying rule is deeper than the best, and none as deep refuses.
  ghost predicate Best(f: Files, project: Path, rules: Rules, best: string) {
    && Applies(f, project, rules, best) && Allows(rules, best)
    && forall path :: Applies(f, project, rules, path) ==>
         && RuleDepth(f, rules, path) <= RuleDepth(f, rules, best)
         && (RuleDepth(f, rules, path) == RuleDepth(f, rules, best) ==> Allows(rules, path))
  }

  ghost predicate Trusted(f: Files, project: Path, rules: Rules) {
    exists best :: Best(f, project, rules, best)
  }

  ghost predicate AllValid(f: Files, rules: Rules) {
    forall path :: path in rules ==> ValidRule(f, path, rules[path])
  }

  // A rule that gives this depth and verdict.
  ghost predicate Deepest(f: Files, project: Path, rules: Rules, path: string, depth: int, trusted: bool) {
    Applies(f, project, rules, path) && RuleDepth(f, rules, path) == depth && Allows(rules, path) == trusted
  }

  // `seen` rules folded into a depth and a verdict.
  ghost predicate Folded(f: Files, project: Path, rules: Rules, seen: set<string>, depth: int, trusted: bool) {
    && (forall path :: path in seen && Applies(f, project, rules, path) ==>
          RuleDepth(f, rules, path) <= depth && (RuleDepth(f, rules, path) == depth && trusted ==> Allows(rules, path)))
    && (depth == -1 ==> !trusted)
    && (depth != -1 ==> exists path :: path in seen && Deepest(f, project, rules, path, depth, trusted))
  }

  // The answer is the same whatever order the rules are met in: unknown if any rule
  // is malformed, else trusted exactly when the deepest rules that apply all allow.
  method TrustDecision(f: Files, project: Path, rules: Rules) returns (trusted: bool, known: bool)
    ensures known <==> AllValid(f, rules)
    ensures known <==> forall path :: path in rules ==>
              && f.isAbs(path)
              && (|| rules[path] == Some("TRUST_FOLDER") || rules[path] == Some("TRUST_PARENT")
                  || rules[path] == Some("DO_NOT_TRUST"))
    ensures trusted <==> known && Trusted(f, project, rules)
  {
    hide ValidRule, Scope, Covers, RuleDepth, Allows, Applies, Folded;
    var depth: int := -1;
    trusted := false;
    var left := rules.Keys;
    NothingFolded(f, project, rules);
    while left != {}
      invariant left <= rules.Keys
      invariant forall path :: path in rules && path !in left ==> ValidRule(f, path, rules[path])
      invariant forall path :: path in rules && path !in left ==>
                  && f.isAbs(path)
                  && (|| rules[path] == Some("TRUST_FOLDER") || rules[path] == Some("TRUST_PARENT")
                      || rules[path] == Some("DO_NOT_TRUST"))
      invariant Folded(f, project, rules, rules.Keys - left, depth, trusted)
    {
      var path :| path in left;
      var level := rules[path];
      RuleByName(f, path, level);
      if !ValidRule(f, path, level) {
        return false, false;
      }
      ghost var seen := rules.Keys - left;
      left := left - {path};
      assert rules.Keys - left == seen + {path};
      FoldOne(f, project, rules, seen, depth, trusted, path);
      var scope := Scope(f, path, level);
      if Covers(scope, project) {
        var n := Depth(scope);
        var allow := level != Some(DO_NOT_TRUST);
        if n > depth || (n == depth && !allow) {
          depth, trusted := n, allow;
        }
      }
    }
    assert rules.Keys - left == rules.Keys;
    FoldedAll(f, project, rules, depth, trusted);
    known := true;
  }

  lemma RuleByName(f: Files, path: string, level: Option<string>)
    ensures ValidRule(f, path, level) <==>
            && f.isAbs(path)
            && (level == Some("TRUST_FOLDER") || level == Some("TRUST_PARENT") || level == Some("DO_NOT_TRUST"))
  {
  }

  lemma NothingFolded(f: Files, project: Path, rules: Rules)
    ensures Folded(f, project, rules, rules.Keys - rules.Keys, -1, false)
  {
  }

  lemma FoldOne(f: Files, project: Path, rules: Rules, seen: set<string>, depth: int, trusted: bool, path: string)
    requires path in rules && Folded(f, project, rules, seen, depth, trusted)
    ensures var scope := Scope(f, path, rules[path]);
            var n, allow := Depth(scope), rules[path] != Some(DO_NOT_TRUST);
            if Covers(scope, project) && (n > depth || (n == depth && !allow))
            then Folded(f, project, rules, seen + {path}, n, allow)
            else Folded(f, project, rules, seen + {path}, depth, trusted)
  {
    hide Scope, Covers, Depth;
    var n, allow := RuleDepth(f, rules, path), Allows(rules, path);
    if Applies(f, project, rules, path) && (n > depth || (n == depth && !allow)) {
      assert path in seen + {path};
    } else if depth != -1 {
      var p :| p in seen && Deepest(f, project, rules, p, depth, trusted);
      assert p in seen + {path};
    }
  }

  lemma FoldedAll(f: Files, project: Path, rules: Rules, depth: int, trusted: bool)
    requires Folded(f, project, rules, rules.Keys, depth, trusted)
    ensures trusted <==> Trusted(f, project, rules)
  {
    hide Scope, Covers, RuleDepth;
    assert forall path :: Applies(f, project, rules, path) ==> path in rules.Keys;
    if trusted {
      var p :| p in rules.Keys && Deepest(f, project, rules, p, depth, trusted);
      assert Best(f, project, rules, p);
    }
    if Trusted(f, project, rules) {
      var best :| Best(f, project, rules, best);
      assert best in rules.Keys && RuleDepth(f, rules, best) <= depth;
    }
  }

  // What each of the three levels says when no other rule is there.
  lemma OneRule(f: Files, project: Path, path: string)
    ensures Trusted(f, project, map[path := Some("TRUST_FOLDER")]) <==> f.resolve(path) <= project
    ensures Trusted(f, project, map[path := Some("TRUST_PARENT")]) <==>
              f.resolve(path) == [] || f.resolve(path)[..|f.resolve(path)| - 1] <= project
    ensures !Trusted(f, project, map[path := Some("DO_NOT_TRUST")])
  {
    var own := f.resolve(path);
    var parent := if own == [] then [] else own[..|own| - 1];
    OnlyRule(f, project, path, Some("TRUST_FOLDER"), own);
    OnlyRule(f, project, path, Some("TRUST_PARENT"), parent);
    OnlyRule(f, project, path, Some("DO_NOT_TRUST"), own);
  }

  lemma OnlyRule(f: Files, project: Path, path: string, level: Option<string>, scope: Path)
    requires scope == Scope(f, path, level)
    ensures Trusted(f, project, map[path := level]) <==> scope <= project && level != Some(DO_NOT_TRUST)
  {
    var rules := map[path := level];
    if scope <= project && level != Some(DO_NOT_TRUST) {
      assert Best(f, project, rules, path);
    }
  }

  // ----- Nearest rule wins, except at the root -----

  // Reading the rules by directory: the nearest enclosing directory with a rule
  // decides, and a refusal there outweighs a trust.
  ghost predicate Nearest(f: Files, project: Path, rules: Rules, best: string) {
    && Applies(f, project, rules, best) && Allows(rules, best)
    && forall path :: Applies(f, project, rules, path) ==>
         var scope, own := Scope(f, path, rules[path]), Scope(f, best, rules[best]);
         |scope| <= |own| && (|scope| == |own| ==> Allows(rules, path))
  }

  // A rule that refuses the root directory itself.
  ghost predicate RootRefused(f: Files, project: Path, rules: Rules) {
    exists path :: Applies(f, project, rules, path) && Scope(f, path, rules[path]) == [] && !Allows(rules, path)
  }

  // The decision is the nearest rule's, unless that is on a top-level directory while
  // the root is refused: the two count as equally deep, so the refusal wins.
  lemma NearestDecides(f: Files, project: Path, rules: Rules, best: string)
    requires Nearest(f, project, rules, best)
    ensures Trusted(f, project, rules) <==> |Scope(f, best, rules[best])| != 1 || !RootRefused(f, project, rules)
  {
    hide Scope, Covers, Allows;
    var own := Scope(f, best, rules[best]);
    if |own| != 1 || !RootRefused(f, project, rules) {
      forall path | Applies(f, project, rules, path)
        ensures RuleDepth(f, rules, path) <= RuleDepth(f, rules, best)
        ensures RuleDepth(f, rules, path) == RuleDepth(f, rules, best) ==> Allows(rules, path)
      {
        assert |Scope(f, path, rules[path])| <= |own|;
      }
      assert Best(f, project, rules, best);
    } else {
      var root :| Applies(f, project, rules, root) && Scope(f, root, rules[root]) == [] && !Allows(rules, root);
    }
  }

  lemma OnlyNearestIsTrusted(f: Files, project: Path, rules: Rules)
    requires Trusted(f, project, rules)
    ensures exists best :: Nearest(f, project, rules, best)
  {
    hide Covers, Allows;
    var best :| Best(f, project, rules, best);
    if Scope(f, best, rules[best]) == [] && exists p :: Applies(f, project, rules, p) && |Scope(f, p, rules[p])| == 1 {
      var p :| Applies(f, project, rules, p) && |Scope(f, p, rules[p])| == 1;
      assert Nearest(f, project, rules, p) by {
        forall q | Applies(f, project, rules, q)
          ensures |Scope(f, q, rules[q])| <= 1 && (|Scope(f, q, rules[q])| == 1 ==> Allows(rules, q))
        {
          assert RuleDepth(f, rules, q) <= 2;
        }
      }
    } else {
      forall q | Applies(f, project, rules, q)
        ensures |Scope(f, q, rules[q])| <= |Scope(f, best, rules[best])|
        ensures |Scope(f, q, rules[q])| == |Scope(f, best, rules[best])| ==> Allows(rules, q)
      {
        assert RuleDepth(f, rules, q) <= RuleDepth(f, rules, best);
      }
      assert Nearest(f, project, rules, best);
    }
  }

  // The exception exists: the root refused, a top-level directory trusted, and a
  // project inside it that is not trusted.
  lemma TopLevelTrustIsLost()
    ensures exists f: Files, project: Path, rules: Rules, best: string ::
      Nearest(f, project, rules, best) && !Trusted(f, project, rules) && AllValid(f, rules)
  {
    var f := Files(_ => true, p => if p == "/" then [] else ["a"]);
    var project: Path := ["a", "b"];
    var rules: Rules := map["/" := Some(DO_NOT_TRUST), "/a" := Some(TRUST_FOLDER)];
    assert Nearest(f, project, rules, "/a");
    assert Applies(f, project, rules, "/") && Scope(f, "/", rules["/"]) == [] && !Allows(rules, "/");
    NearestDecides(f, project, rules, "/a");
    assert AllValid(f, rules);
  }
}
