/** The workspace deny-rule store (src/core/policy.rs). */
module PolicyRules {
  import opened Paths
  import opened Wrappers

  datatype Rule = Rule(id: string, tool: string, pattern: string)

  datatype Error = InvalidId | UnsupportedTool | DuplicateId | WriteFailed

  const FILE_TOOLS: set<string> := {
    "workspace.write_file", "workspace.delete_file", "filesystem.replace", "filesystem.insert",
    "filesystem.delete_range", "filesystem.patch", "filesystem.apply_diff", "filesystem.rollback"}

  const TERMINAL_TOOL := "terminal.run"

  predicate SafeId(id: string) {
    id != "" && id != "." && id != ".." && '/' !in id && '\\' !in id
  }

  predicate SupportedTool(tool: string) { tool in FILE_TOOLS || tool == TERMINAL_TOOL }

  /** The path tools match by prefix, the terminal by equality, other tools never. */
  predicate RuleMatches(rule: Rule, tool: string, resource: string) {
    rule.tool == tool &&
    if tool in FILE_TOOLS then PathPrefixMatches(rule.pattern, resource)
    else tool == TERMINAL_TOOL && rule.pattern == resource
  }

  /** The rule that decides a call: the first that matches. */
  ghost predicate IsFirstMatch(rules: seq<Rule>, tool: string, resource: string, r: Option<Rule>) {
    match r
    case None => forall i :: 0 <= i < |rules| ==> !RuleMatches(rules[i], tool, resource)
    case Some(rule) =>
      exists i :: 0 <= i < |rules| && rules[i] == rule && RuleMatches(rule, tool, resource)
                  && forall j :: 0 <= j < i ==> !RuleMatches(rules[j], tool, resource)
  }

  function WithoutId(rules: seq<Rule>, id: string): seq<Rule> {
    if rules == [] then []
    else (if rules[0].id == id then [] else [rules[0]]) + WithoutId(rules[1..], id)
  }

  predicate HasId(rules: seq<Rule>, id: string) {
    exists i :: 0 <= i < |rules| && rules[i].id == id
  }

  ghost predicate UniqueIds(rules: seq<Rule>) {
    forall i, j :: 0 <= i < j < |rules| ==> rules[i].id != rules[j].id
  }

  class PolicyStore {
    var rules: seq<Rule>

    ghost predicate Valid()
      reads this
    {
      UniqueIds(rules) && forall r :: r in rules ==> SafeId(r.id) && SupportedTool(r.tool)
    }

    constructor ()
      ensures Valid() && rules == []
    {
      rules := [];
    }

    /** Appends a rule; on any error the stored rules stay as they were. */
    method Add(rule: Rule, saved: bool) returns (error: Option<Error>)
      requires Valid()
      modifies this
      ensures Valid()
      ensures error == if !SafeId(rule.id) then Some(InvalidId)
                       else if !SupportedTool(rule.tool) then Some(UnsupportedTool)
                       else if HasId(old(rules), rule.id) then Some(DuplicateId)
                       else if !saved then Some(WriteFailed) else None
      ensures rules == if error.None? then old(rules) + [rule] else old(rules)
    {
      if !SafeId(rule.id) { return Some(InvalidId); }
      if !SupportedTool(rule.tool) { return Some(UnsupportedTool); }
      if HasId(rules, rule.id) { return Some(DuplicateId); }
      if !saved { return Some(WriteFailed); }
      rules := rules + [rule];
      error := None;
    }

    /** Removes the rule with an id; says whether there was one. */
    method Remove(id: string, saved: bool) returns (r: Result<bool, Error>)
      requires Valid()
      modifies this
      ensures Valid()
      ensures r == if !HasId(old(rules), id) then Ok(false) else if saved then Ok(true) else Err(WriteFailed)
      ensures rules == if r == Ok(true) then WithoutId(old(rules), id) else old(rules)
    {
      var kept: seq<Rule> := [];
      for i := 0 to |rules|
        invariant rules == old(rules) && kept == WithoutId(rules[..i], id)
      {
        assert rules[..i + 1] == rules[..i] + [rules[i]];
        WithoutIdAppend(rules[..i], rules[i], id);
        if rules[i].id != id {
          kept := kept + [rules[i]];
        }
      }
      assert rules[..|rules|] == rules;
      WithoutIdLength(rules, id);
      if |kept| == |rules| { return Ok(false); }
      if !saved { return Err(WriteFailed); }
      WithoutIdKeepsUnique(rules, id);
      rules := kept;
      r := Ok(true);
    }

    method Matching(tool: string, resource: string) returns (r: Option<Rule>)
      ensures IsFirstMatch(rules, tool, resource, r)
    {
      for i := 0 to |rules|
        invariant forall j :: 0 <= j < i ==> !RuleMatches(rules[j], tool, resource)
      {
        if RuleMatches(rules[i], tool, resource) {
          return Some(rules[i]);
        }
      }
      r := None;
    }
  }

  lemma {:induction false} WithoutIdIn(rules: seq<Rule>, id: string, r: Rule)
    ensures r in WithoutId(rules, id) <==> r in rules && r.id != id
  {
    if rules != [] {
      WithoutIdIn(rules[1..], id, r);
      assert r in rules <==> r == rules[0] || r in rules[1..];
    }
  }

  lemma {:induction false} WithoutIdAppend(rules: seq<Rule>, r: Rule, id: string)
    ensures WithoutId(rules + [r], id) ==
            if r.id == id then WithoutId(rules, id) else WithoutId(rules, id) + [r]
  {
    if rules == [] {
      assert [] + [r] == [r] && [r][1..] == [];
    } else {
      WithoutIdAppend(rules[1..], r, id);
      assert (rules + [r])[1..] == rules[1..] + [r] && (rules + [r])[0] == rules[0];
      var first := if rules[0].id == id then [] else [rules[0]];
      assert first + (WithoutId(rules[1..], id) + [r]) == (first + WithoutId(rules[1..], id)) + [r];
    }
  }

  lemma {:induction false} WithoutIdLength(rules: seq<Rule>, id: string)
    ensures |WithoutId(rules, id)| <= |rules|
    ensures |WithoutId(rules, id)| == |rules| <==> !HasId(rules, id)
    ensures !HasId(rules, id) ==> WithoutId(rules, id) == rules
  {
    if rules != [] {
      WithoutIdLength(rules[1..], id);
      assert HasId(rules, id) <==> rules[0].id == id || HasId(rules[1..], id) by {
        if HasId(rules, id) && rules[0].id != id {
          var i :| 0 <= i < |rules| && rules[i].id == id;
          assert rules[1..][i - 1].id == id;
        }
      }
    }
  }

  lemma {:induction false} WithoutIdKeepsUnique(rules: seq<Rule>, id: string)
    requires UniqueIds(rules)
    ensures UniqueIds(WithoutId(rules, id))
    ensures forall r :: r in WithoutId(rules, id) ==> r in rules
  {
    if rules != [] {
      WithoutIdKeepsUnique(rules[1..], id);
      var rest := WithoutId(rules[1..], id);
      forall j | 0 <= j < |rest| ensures rest[j].id != rules[0].id {
        assert rest[j] in rules[1..];
      }
    }
  }

  /** The first match is unique, so the store's answer is a function of its rules. */
  lemma FirstMatchIsUnique(rules: seq<Rule>, tool: string, resource: string, a: Option<Rule>, b: Option<Rule>)
    requires IsFirstMatch(rules, tool, resource, a) && IsFirstMatch(rules, tool, resource, b)
    ensures a == b
  {
    if a.Some? && b.Some? {
      var i :| 0 <= i < |rules| && rules[i] == a.value && RuleMatches(a.value, tool, resource)
               && forall j :: 0 <= j < i ==> !RuleMatches(rules[j], tool, resource);
      var k :| 0 <= k < |rules| && rules[k] == b.value && RuleMatches(b.value, tool, resource)
               && forall j :: 0 <= j < k ==> !RuleMatches(rules[j], tool, resource);
      assert i == k;
    }
  }

  /** Adding a rule never changes an existing first match; without one the new rule decides. */
  lemma AddingKeepsTheFirstMatch(rules: seq<Rule>, rule: Rule, tool: string, resource: string, r: Option<Rule>)
    requires IsFirstMatch(rules, tool, resource, r)
    ensures IsFirstMatch(rules + [rule], tool, resource,
                         if r.None? && RuleMatches(rule, tool, resource) then Some(rule) else r)
  {
    var longer := rules + [rule];
    if r.Some? {
      var i :| 0 <= i < |rules| && rules[i] == r.value && RuleMatches(r.value, tool, resource)
               && forall j :: 0 <= j < i ==> !RuleMatches(rules[j], tool, resource);
      assert longer[i] == r.value;
    } else if RuleMatches(rule, tool, resource) {
      assert longer[|rules|] == rule;
    }
  }

  /** Removing a rule that was added under a fresh id gives the rules back. */
  lemma RemoveUndoesAdd(rules: seq<Rule>, rule: Rule)
    requires !HasId(rules, rule.id)
    ensures WithoutId(rules + [rule], rule.id) == rules
  {
    WithoutIdAppend(rules, rule, rule.id);
    WithoutIdLength(rules, rule.id);
  }

  /** A denied path stays denied however deep one goes below it. */
  lemma DenialCoversSubtree(rules: seq<Rule>, tool: string, resource: string, below: string, r: Option<Rule>)
    requires tool in FILE_TOOLS
    requires exists i :: 0 <= i < |rules| && RuleMatches(rules[i], tool, resource)
    requires IsFirstMatch(rules, tool, resource + "/" + below, r)
    ensures r.Some?
  {
    var i :| 0 <= i < |rules| && RuleMatches(rules[i], tool, resource);
    MatchCoversSubtree(rules[i].pattern, resource, below);
    assert RuleMatches(rules[i], tool, resource + "/" + below);
  }

  /** What a rule denies: under the eight tools that work on files every path that has the
      pattern's components in front, and under the terminal the very program. */
  predicate Denies(rule: Rule, tool: string, resource: string) {
    rule.tool == tool &&
    (|| (tool == "terminal.run" && resource == rule.pattern)
     || (tool in ["workspace.write_file", "workspace.delete_file", "filesystem.replace", "filesystem.insert",
                  "filesystem.delete_range", "filesystem.patch", "filesystem.apply_diff", "filesystem.rollback"]
         && SlashComponents(rule.pattern) != [] && SlashComponents(rule.pattern) <= SlashComponents(resource)))
  }

  lemma TerminalIsNoFileTool()
    ensures TERMINAL_TOOL !in FILE_TOOLS
  {
    assert |TERMINAL_TOOL| == 12;
  }

  lemma MatchesIffDenies(rule: Rule, tool: string, resource: string)
    ensures RuleMatches(rule, tool, resource) <==> Denies(rule, tool, resource)
  {
    PrefixMatchIsComponentPrefix(rule.pattern, resource);
    TerminalIsNoFileTool();
  }

  /** A call is denied exactly when some rule denies it, and the answer is the first that
      does. */
  lemma DeniedIff(rules: seq<Rule>, tool: string, resource: string, r: Option<Rule>)
    requires IsFirstMatch(rules, tool, resource, r)
    ensures r.Some? <==> exists i :: 0 <= i < |rules| && Denies(rules[i], tool, resource)
    ensures r.Some? ==> exists i :: 0 <= i < |rules| && rules[i] == r.value && Denies(rules[i], tool, resource)
                                    && forall j :: 0 <= j < i ==> !Denies(rules[j], tool, resource)
  {
    forall i | 0 <= i < |rules| ensures RuleMatches(rules[i], tool, resource) <==> Denies(rules[i], tool, resource) {
      MatchesIffDenies(rules[i], tool, resource);
    }
    if r.Some? {
      var i :| 0 <= i < |rules| && rules[i] == r.value && RuleMatches(r.value, tool, resource)
               && forall j :: 0 <= j < i ==> !RuleMatches(rules[j], tool, resource);
      assert Denies(rules[i], tool, resource);
    }
  }

  /** Every rule whose tool denies anything can be stored, and no other can. */
  lemma StorableTools(tool: string)
    ensures SupportedTool(tool) <==> exists rule: Rule, resource: string :: Denies(rule, tool, resource)
  {
    if SupportedTool(tool) {
      var rule := Rule("", tool, "a");
      MatchesIffDenies(rule, tool, "a");
      if tool in FILE_TOOLS { PatternMatchesItself(); }
    }
    if rule: Rule, resource: string :| Denies(rule, tool, resource) { MatchesIffDenies(rule, tool, resource); }
  }

  lemma PatternMatchesItself()
    ensures SlashComponents("a") == ["a"]
  {
    OneComponent("a", SLASH);
  }

  /** A rule id names one file next to the rules: it is a path of one component, which is
      neither of the two dot names. */
  lemma SafeIdIff(id: string)
    ensures SafeId(id) <==> KeyComponents(id) == [id] && id != ".."
  {
    if SafeId(id) {
      SplitSepFree(id, SLASHES);
      assert [id][1..] == [] && NonEmpty([id]) == [id] && DropDots([id]) == [id];
    } else if KeyComponents(id) == [id] {
      KeyComponentsProper(id);
      assert id in KeyComponents(id);
    }
  }
}
