/** Rewriting file paths by an ordered list of prefix rules.  Paths and rules
    are C strings, so they hold no NUL character. */
module IoRewrite {

  datatype Rule = Rule(source: string, target: string)

  // ---- The scan ---------------------------------------------------------------

  /** rfind at position 0: 0 if t starts with s there, else npos. */
  function RFindAtStart(t: string, s: string): int {
    if |s| <= |t| && t[..|s|] == s then 0 else -1
  }

  function Scan(rules: seq<Rule>, path: string): string
    requires path != ""
  {
    if rules == [] then path
    else
      var r := rules[0];
      if path[0] != '/' && r.source == "." then r.target + path
      else if |path| >= |r.source| && path[..|r.source|] == r.source && RFindAtStart(r.target, r.source) != 0 then
        r.target + path[|r.source|..]
      else Scan(rules[1..], path)
  }

  /** The path given to the host; no path and the empty path stay empty. */
  function Rewrite(rules: seq<Rule>, path: string): string {
    if path == "" then "" else Scan(rules, path)
  }

  // ---- First match ----------------------------------------------------------

  /** The rule "." takes every relative path. */
  predicate DotFires(r: Rule, path: string) {
    path != "" && path[0] != '/' && r.source == "."
  }

  /** A rule whose target starts with its source is off, however else the two
      compare. */
  predicate Active(r: Rule) {
    !(r.source <= r.target)
  }

  predicate PrefixFires(r: Rule, path: string) {
    r.source <= path && Active(r)
  }

  predicate Fires(r: Rule, path: string) {
    DotFires(r, path) || PrefixFires(r, path)
  }

  /** The first rule that fires, or the number of rules. */
  predicate First(rules: seq<Rule>, path: string, i: nat) {
    && i <= |rules| && (forall j :: 0 <= j < i ==> !Fires(rules[j], path))
    && (i < |rules| ==> Fires(rules[i], path))
  }

  lemma {:induction false} HasFirst(rules: seq<Rule>, path: string) returns (i: nat)
    ensures First(rules, path, i)
  {
    if rules == [] || Fires(rules[0], path) {
      i := 0;
    } else {
      var k := HasFirst(rules[1..], path);
      i := k + 1;
    }
  }

  /** The scan, rule by rule and over plain prefixes: the first rule that is "."
      for a relative path, or a prefix of the path and none of its own target,
      decides, and without one the path stays. */
  lemma {:induction false} ScanIs(rules: seq<Rule>, path: string, i: nat)
    requires path != "" && i <= |rules|
    requires forall j :: 0 <= j < i ==> !(path[0] != '/' && rules[j].source == ".")
    requires forall j :: 0 <= j < i ==> !(rules[j].source <= path && !(rules[j].source <= rules[j].target))
    ensures i == |rules| ==> Rewrite(rules, path) == path
    ensures i < |rules| && path[0] != '/' && rules[i].source == "." ==> Rewrite(rules, path) == rules[i].target + path
    ensures i < |rules| && !(path[0] != '/' && rules[i].source == ".")
            && rules[i].source <= path && !(rules[i].source <= rules[i].target) ==>
              Rewrite(rules, path) == rules[i].target + path[|rules[i].source|..]
  {
    if i > 0 {
      ScanIs(rules[1..], path, i - 1);
    }
  }

  /** Only the first rule that fires counts: it replaces its source by its
      target, and the rule "." puts its target in front. */
  lemma FirstMatch(rules: seq<Rule>, path: string, i: nat)
    requires path != "" && First(rules, path, i)
    ensures i == |rules| ==> Rewrite(rules, path) == path
    ensures i < |rules| && DotFires(rules[i], path) ==> Rewrite(rules, path) == rules[i].target + path
    ensures i < |rules| && !DotFires(rules[i], path) ==>
              path == rules[i].source + path[|rules[i].source|..] &&
              Rewrite(rules, path) == rules[i].target + path[|rules[i].source|..]
  {
    forall j | 0 <= j < i
      ensures !DotFires(rules[j], path) && !PrefixFires(rules[j], path)
    {
      assert !Fires(rules[j], path);
    }
    ScanIs(rules, path, i);
    if i < |rules| && !DotFires(rules[i], path) {
      assert path[..|rules[i].source|] == rules[i].source;
    }
  }

  /** A path stays as it is exactly when no rule fires, or the first that does
      is "." with nothing to put in front. */
  lemma Unchanged(rules: seq<Rule>, path: string, i: nat)
    requires path != "" && First(rules, path, i)
    ensures Rewrite(rules, path) == path <==>
            i == |rules| || (DotFires(rules[i], path) && rules[i].target == "")
  {
    FirstMatch(rules, path, i);
    if i < |rules| {
      var r := rules[i];
      if DotFires(r, path) {
        assert |r.target + path| == |r.target| + |path|;
      } else {
        var rest := path[|r.source|..];
        assert (r.target + rest)[..|r.target|] == r.target;
        assert |r.target + rest| == |r.target| + |path| - |r.source|;
      }
    }
  }

  // ---- Rewriting twice --------------------------------------------------------

  predicate Absolute(path: string) {
    path != "" && path[0] == '/'
  }

  predicate Comparable(a: string, b: string) {
    a <= b || b <= a
  }

  /** Every target is absolute and no active source overlaps a target. */
  predicate Separate(rules: seq<Rule>) {
    && (forall i :: 0 <= i < |rules| ==> Absolute(rules[i].target))
    && (forall i, j :: 0 <= i < |rules| && 0 <= j < |rules| && Active(rules[i]) ==>
                         !Comparable(rules[i].source, rules[j].target))
  }

  lemma PrefixesCompare(a: string, b: string, rest: string)
    requires a <= b + rest
    ensures Comparable(a, b)
  {
    assert (b + rest)[..|b|] == b;
    if |a| <= |b| {
      assert a == (b + rest)[..|a|] == b[..|a|];
    } else {
      assert a[..|b|] == b;
    }
  }

  lemma NothingFires(rules: seq<Rule>, t: string, rest: string, j: nat)
    requires Separate(rules) && j < |rules|
    requires exists i :: 0 <= i < |rules| && rules[i].target == t
    ensures !Fires(rules[j], t + rest)
  {
    var i :| 0 <= i < |rules| && rules[i].target == t;
    assert (t + rest)[0] == t[0];
    if PrefixFires(rules[j], t + rest) {
      PrefixesCompare(rules[j].source, t, rest);
      assert false;
    }
  }

  /** With such rules a second rewrite changes nothing, for any path. */
  lemma Idempotent(rules: seq<Rule>, path: string)
    requires Separate(rules)
    ensures Rewrite(rules, Rewrite(rules, path)) == Rewrite(rules, path)
  {
    if path != "" {
      var i := HasFirst(rules, path);
      FirstMatch(rules, path, i);
      if i < |rules| {
        var t := rules[i].target;
        var rest := if DotFires(rules[i], path) then path else path[|rules[i].source|..];
        forall j | 0 <= j < |rules|
          ensures !Fires(rules[j], t + rest)
        {
          NothingFires(rules, t, rest, j);
        }
        FirstMatch(rules, t + rest, |rules|);
      }
    }
  }

  /** What a single rule must meet. */
  predicate SingleOk(r: Rule) {
    if r.source == "." then r.target == "" || r.target[0] == '/' else !(r.target < r.source)
  }

  lemma OneRule(r: Rule, path: string)
    requires path != ""
    ensures Rewrite([r], path) ==
            if DotFires(r, path) then r.target + path
            else if PrefixFires(r, path) then r.target + path[|r.source|..]
            else path
  {
    FirstMatch([r], path, if Fires(r, path) then 0 else 1);
  }

  lemma SingleKeeps(r: Rule, path: string)
    requires SingleOk(r)
    ensures Rewrite([r], Rewrite([r], path)) == Rewrite([r], path)
  {
    if path != "" {
      OneRule(r, path);
      var once := Rewrite([r], path);
      if once != path && once != "" {
        OneRule(r, once);
        if DotFires(r, path) {
          assert once[0] == r.target[0];
        } else if PrefixFires(r, once) {
          PrefixesCompare(r.source, r.target, path[|r.source|..]);
          assert false;
        }
      }
    }
  }

  /** A path on which the second rewrite goes further than the first. */
  function Witness(r: Rule): string {
    if r.source == "." then "a"
    else if r.target < r.source then r.source + r.source[|r.target|..]
    else r.source
  }

  lemma SingleBreaks(r: Rule)
    requires !SingleOk(r)
    ensures Rewrite([r], Rewrite([r], Witness(r))) != Rewrite([r], Witness(r))
  {
    var p, t := Witness(r), r.target;
    OneRule(r, p);
    if r.source == "." {
      assert (t + p)[0] == t[0];
      OneRule(r, t + p);
      assert |t + (t + p)| > |t + p|;
    } else {
      assert p[..|r.source|] == r.source && p[|r.source|..] == r.source[|t|..];
      assert t + r.source[|t|..] == r.source;
      OneRule(r, r.source);
      assert r.source[|r.source|..] == "";
      assert |t + ""| < |r.source|;
    }
  }

  /** A single rule may be applied twice to any path exactly when its target is
      no proper prefix of its source, or for "." when its target is absolute or
      empty. */
  lemma SingleRuleExact(r: Rule)
    ensures SingleOk(r) <==> forall path :: Rewrite([r], Rewrite([r], path)) == Rewrite([r], path)
  {
    if SingleOk(r) {
      forall path
        ensures Rewrite([r], Rewrite([r], path)) == Rewrite([r], path)
      {
        SingleKeeps(r, path);
      }
    } else {
      SingleBreaks(r);
    }
  }

  // ---- open with a mode ---------------------------------------------------------

  /** The table entry rewrites the argument, and the function it calls rewrites
      it again. */
  function Open3Path(rules: seq<Rule>, path: string): string {
    Rewrite(rules, Rewrite(rules, path))
  }

  /** Both rewrites together open what one would exactly when, after the first,
      no rule fires or only "." with nothing to put in front. */
  lemma Open3Exact(rules: seq<Rule>, path: string, i: nat)
    requires First(rules, Rewrite(rules, path), i)
    ensures Open3Path(rules, path) == Rewrite(rules, path) <==>
            || Rewrite(rules, path) == ""
            || i == |rules|
            || (DotFires(rules[i], Rewrite(rules, path)) && rules[i].target == "")
  {
    if Rewrite(rules, path) != "" {
      Unchanged(rules, Rewrite(rules, path), i);
    }
  }

  // ---- Tables that may be applied twice -----------------------------------------------

  /** What a rule takes off the front of a path. */
  function Head(r: Rule): string {
    if r.source == "." then "" else r.source
  }

  /** What must follow the target t for the source s to fire on it. */
  function Tail(t: string, s: string): string {
    if t <= s then s[|t|..] else ""
  }

  predicate Settles(rules: seq<Rule>, path: string) {
    Open3Path(rules, path) == Rewrite(rules, path)
  }

  /** The paths that decide: a rule's head alone, with one more character, or
      with what makes some source fire on the rule's target. */
  ghost predicate TableOk(rules: seq<Rule>) {
    forall i :: 0 <= i < |rules| ==> RuleOk(rules, i)
  }

  ghost predicate RuleOk(rules: seq<Rule>, i: nat)
    requires i < |rules|
  {
    && Settles(rules, Head(rules[i]))
    && (forall c: char :: Settles(rules, Head(rules[i]) + [c]))
    && (forall j :: 0 <= j < |rules| ==> Settles(rules, Head(rules[i]) + Tail(rules[i].target, rules[j].source)))
  }

  /** A rule that fires on the front of a path fires on the path. */
  lemma FiresOnMore(r: Rule, front: string, path: string)
    requires front != "" && front <= path && Fires(r, front)
    ensures Fires(r, path) && (DotFires(r, path) <==> DotFires(r, front))
  {
    assert front[0] == path[0];
    if PrefixFires(r, front) {
      assert path[..|r.source|] == front[..|r.source|];
    }
  }

  lemma FirstStays(rules: seq<Rule>, front: string, path: string, i: nat)
    requires front != "" && front <= path && First(rules, path, i) && i < |rules| && Fires(rules[i], front)
    ensures First(rules, front, i)
  {
    forall j | 0 <= j < i
      ensures !Fires(rules[j], front)
    {
      if Fires(rules[j], front) {
        FiresOnMore(rules[j], front, path);
        assert false;
      }
    }
  }

  /** What the first rule that fires makes of a path, head by head. */
  lemma HeadMatch(rules: seq<Rule>, path: string, i: nat)
    requires path != "" && First(rules, path, i) && i < |rules|
    ensures path == Head(rules[i]) + path[|Head(rules[i])|..]
    ensures Rewrite(rules, path) == rules[i].target + path[|Head(rules[i])|..]
    ensures rules[i].source != "." ==> rules[i].source != "" && PrefixFires(rules[i], path)
  {
    FirstMatch(rules, path, i);
    var r := rules[i];
    if r.source == "." {
      assert DotFires(r, path) by {
        if PrefixFires(r, path) {
          assert path[..1][0] == '.';
        }
      }
      assert path[0..] == path;
    } else {
      assert r.source == "" ==> r.source <= r.target;
    }
  }

  /** If rest makes the second rewrite matter after rule i, so does any front of
      it on which both rules still fire. */
  lemma Shorter(rules: seq<Rule>, i: nat, rest: string, front: string, j: nat)
    requires i < |rules| && front <= rest
    requires var p, q := Head(rules[i]) + rest, rules[i].target + rest;
             p != "" && q != "" && First(rules, p, i) && First(rules, q, j) && j < |rules| && Rewrite(rules, q) != q
    requires Head(rules[i]) + front != "" && Fires(rules[i], Head(rules[i]) + front)
    requires rules[i].target + front != "" && Fires(rules[j], rules[i].target + front)
    ensures !Settles(rules, Head(rules[i]) + front)
  {
    var h, t := Head(rules[i]), rules[i].target;
    assert h + front <= h + rest && t + front <= t + rest;
    FirstStays(rules, h + front, h + rest, i);
    FirstStays(rules, t + front, t + rest, j);
    HeadMatch(rules, h + front, i);
    assert (h + front)[|h|..] == front;
    FiresOnMore(rules[j], t + front, t + rest);
    Unchanged(rules, t + rest, j);
    Unchanged(rules, t + front, j);
  }

  lemma HeadFires(r: Rule, path: string, rest: string, front: string)
    requires path != "" && path == Head(r) + rest && front <= rest && Fires(r, path)
    requires r.source == "." ==> front != ""
    requires r.source != "." ==> r.source != "" && PrefixFires(r, path)
    ensures Head(r) + front != "" && Fires(r, Head(r) + front)
  {
    if r.source == "." {
      assert front[0] == path[0];
      if PrefixFires(r, path) {
        assert path[..1][0] == '.';
      }
    } else {
      assert (r.source + front)[..|r.source|] == r.source;
    }
  }

  /** The front that decides whether rule j fires behind the target t. */
  lemma Front(r: Rule, t: string, rest: string) returns (front: string)
    requires t + rest != "" && Fires(r, t + rest)
    ensures front <= rest && (front == "" ==> rest == "")
    ensures front == "" || |front| == 1 || front == Tail(t, r.source)
    ensures t + front != "" && Fires(r, t + front)
  {
    var q := t + rest;
    if !DotFires(r, q) && !(r.source <= t) {
      PrefixesCompare(r.source, t, rest);
      front := r.source[|t|..];
      assert t + front == r.source;
      assert q[..|r.source|][|t|..] == rest[..|front|];
    } else if rest == "" {
      front := "";
    } else {
      front := rest[..1];
      assert (t + front)[0] == q[0];
      assert r.source <= t ==> (t + front)[..|r.source|] == t[..|r.source|];
    }
  }

  /** A path that does not settle leads to a deciding one that does not. */
  lemma Reduces(rules: seq<Rule>, path: string, i: nat) returns (front: string, j: nat)
    requires path != "" && First(rules, path, i) && i < |rules| && !Settles(rules, path)
    ensures j < |rules| && (front == "" || |front| == 1 || front == Tail(rules[i].target, rules[j].source))
    ensures !Settles(rules, Head(rules[i]) + front)
  {
    HeadMatch(rules, path, i);
    var t, rest := rules[i].target, path[|Head(rules[i])|..];
    var q := t + rest;
    j := HasFirst(rules, q);
    FirstMatch(rules, q, j);
    front := Front(rules[j], t, rest);
    HeadFires(rules[i], path, rest, front);
    Shorter(rules, i, rest, front, j);
  }

  lemma Decided(rules: seq<Rule>, i: nat, front: string, j: nat)
    requires i < |rules| && j < |rules| && RuleOk(rules, i)
    requires front == "" || |front| == 1 || front == Tail(rules[i].target, rules[j].source)
    ensures Settles(rules, Head(rules[i]) + front)
  {
    if front == "" {
      assert Head(rules[i]) + front == Head(rules[i]);
    } else if |front| == 1 {
      assert front == [front[0]];
    }
  }

  lemma TableSettles(rules: seq<Rule>, path: string)
    requires TableOk(rules)
    ensures Settles(rules, path)
  {
    if !Settles(rules, path) {
      var i := HasFirst(rules, path);
      if i == |rules| {
        FirstMatch(rules, path, i);
      } else {
        var front, j := Reduces(rules, path, i);
        Decided(rules, i, front, j);
      }
      assert false;
    }
  }

  /** A table may be applied twice to every path exactly when that is so for the
      deciding paths. */
  lemma TableExact(rules: seq<Rule>)
    ensures TableOk(rules) <==> forall path :: Settles(rules, path)
  {
    if TableOk(rules) {
      forall path
        ensures Settles(rules, path)
      {
        TableSettles(rules, path);
      }
    }
  }

  /** With a target above its source the guard lets the rule fire, and fire
      again. */
  lemma Open3Differs()
    ensures var rules := [Rule("/data/app", "/data")];
            && Rewrite(rules, "/data/app/app/x") == "/data/app/x"
            && Open3Path(rules, "/data/app/app/x") == "/data/x"
  {
    var r := Rule("/data/app", "/data");
    OneRule(r, "/data/app/app/x");
    assert "/data/app/app/x"[..9] == "/data/app" && "/data/app/app/x"[9..] == "/app/x";
    assert "/data" + "/app/x" == "/data/app/x";
    OneRule(r, "/data/app/x");
    assert "/data/app/x"[..9] == "/data/app" && "/data/app/x"[9..] == "/x";
  }
}
