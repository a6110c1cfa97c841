/**
 The default-container rulebook: the first rule that matches a task fills in the task's container.
 */
module ContainerRules {
  import opened Options
  import opened Sequences

  datatype Requirement = Requirement(name: string, specs: string)

  // One of the two requirement sections.
  datatype Section = Pip | Conda

  const SECTIONS: seq<Section> := [Pip, Conda]

  // The script of a rule is a text or a list of lines.
  datatype Script = Text(text: string) | Lines(lines: seq<string>)

  // A rule: the terms for the keys it mentions, its requirements, and what it gives to the container.
  // `given` tells whether the rule has a match part at all.
  datatype Rule = Rule(
    given: bool, terms: map<string, seq<string>>, requirements: map<Section, seq<Requirement>>,
    image: string, arguments: string, script: Script, force: bool, updateBack: Option<bool>)

  // A key of the task with its values, in the order in which the keys are looked up.
  datatype Lookup = Lookup(key: string, values: seq<string>)

  // What the regular expressions, the version comparison and the requirement parser answer.
  datatype Oracle = Oracle(
    valid: string -> bool, search: (string, string) -> bool,
    satisfies: (Requirement, Requirement) -> bool, packages: Section -> seq<Requirement>)

  // ---------------------------------------------------------------- when a rule matches

  predicate TermMatches(o: Oracle, term: string, values: seq<string>) {
    o.valid(term) && exists v :: v in values && o.search(term, v)
  }

  predicate KeyMatches(o: Oracle, rule: Rule, lookup: Lookup) {
    lookup.key in rule.terms ==>
      forall t :: t in rule.terms[lookup.key] ==> TermMatches(o, t, lookup.values)
  }

  predicate Installed(o: Oracle, r: Requirement, section: Section) {
    exists p :: p in o.packages(section) && r.name == p.name && o.satisfies(r, p)
  }

  predicate SectionMatches(o: Oracle, rule: Rule, section: Section) {
    section in rule.requirements ==>
      forall r :: r in rule.requirements[section] ==> Installed(o, r, section)
  }

  predicate Matches(o: Oracle, rule: Rule, lookups: seq<Lookup>) {
    && rule.given
    && (forall l :: l in lookups ==> KeyMatches(o, rule, l))
    && forall s :: s in SECTIONS ==> SectionMatches(o, rule, s)
  }

  // A rule matches when it has a match part, every term it gives for a key of the task is a valid expression found
  // in one of the key's values, and every requirement of its two sections is met by a package of that section with
  // the same name.
  lemma MatchesMeaning(o: Oracle, rule: Rule, lookups: seq<Lookup>)
    ensures Matches(o, rule, lookups) <==>
      && rule.given
      && (forall l, t :: l in lookups && l.key in rule.terms && t in rule.terms[l.key] ==>
            o.valid(t) && exists v :: v in l.values && o.search(t, v))
      && (forall r :: Pip in rule.requirements && r in rule.requirements[Pip] ==>
            exists p :: p in o.packages(Pip) && p.name == r.name && o.satisfies(r, p))
      && (forall r :: Conda in rule.requirements && r in rule.requirements[Conda] ==>
            exists p :: p in o.packages(Conda) && p.name == r.name && o.satisfies(r, p))
  {
    assert Pip in SECTIONS && Conda in SECTIONS && forall s :: s in SECTIONS <==> s == Pip || s == Conda;
    assert (forall l :: l in lookups ==> KeyMatches(o, rule, l)) <==>
      forall l, t :: l in lookups && l.key in rule.terms && t in rule.terms[l.key] ==> TermMatches(o, t, l.values);
    assert SectionMatches(o, rule, Pip) <==>
      forall r :: Pip in rule.requirements && r in rule.requirements[Pip] ==> Installed(o, r, Pip);
    assert SectionMatches(o, rule, Conda) <==>
      forall r :: Conda in rule.requirements && r in rule.requirements[Conda] ==> Installed(o, r, Conda);
  }

  // ---------------------------------------------------------------- matching, as it is done

  method MatchKey(o: Oracle, terms: seq<string>, values: seq<string>) returns (matched: bool)
    ensures matched == forall t :: t in terms ==> TermMatches(o, t, values)
  {
    var t := 0;
    while t < |terms|
      invariant 0 <= t <= |terms|
      invariant forall i :: 0 <= i < t ==> TermMatches(o, terms[i], values)
    {
      var found := false;
      var v := 0;
      while v < |values| && !found
        invariant 0 <= v <= |values|
        invariant found ==> o.valid(terms[t]) && exists x :: x in values && o.search(terms[t], x)
        invariant !found ==> forall i :: 0 <= i < v ==> !o.search(terms[t], values[i])
        decreases |values| - v, !found
      {
        if !o.valid(terms[t]) {
          assert terms[t] in terms && !TermMatches(o, terms[t], values);
          return false;
        }
        if o.search(terms[t], values[v]) {
          assert values[v] in values;
          found := true;
        } else {
          v := v + 1;
        }
      }
      if !found {
        assert terms[t] in terms && !TermMatches(o, terms[t], values);
        return false;
      }
      t := t + 1;
    }
    matched := true;
  }

  method MatchTerms(o: Oracle, rule: Rule, lookups: seq<Lookup>) returns (matched: bool)
    ensures matched == forall l :: l in lookups ==> KeyMatches(o, rule, l)
  {
    var i := 0;
    while i < |lookups|
      invariant 0 <= i <= |lookups|
      invariant forall j :: 0 <= j < i ==> KeyMatches(o, rule, lookups[j])
    {
      var l := lookups[i];
      if l.key in rule.terms && rule.terms[l.key] != [] {
        var ok := MatchKey(o, rule.terms[l.key], l.values);
        if !ok {
          assert l in lookups && !KeyMatches(o, rule, l);
          return false;
        }
      }
      assert KeyMatches(o, rule, lookups[i]);
      i := i + 1;
    }
    matched := true;
  }

  method MatchRequirements(o: Oracle, reqs: seq<Requirement>, packages: seq<Requirement>) returns (matchedAll: bool)
    ensures matchedAll ==
      forall r :: r in reqs ==> exists p :: p in packages && r.name == p.name && o.satisfies(r, p)
  {
    matchedAll := true;
    var m := 0;
    while m < |reqs|
      invariant 0 <= m <= |reqs| && matchedAll
      invariant forall i :: 0 <= i < m ==>
        exists p :: p in packages && reqs[i].name == p.name && o.satisfies(reqs[i], p)
    {
      var mr := reqs[m];
      var matchedReq := false;
      var k := 0;
      while k < |packages|
        invariant 0 <= k <= |packages| && !matchedReq
        invariant forall j :: 0 <= j < k ==> !(mr.name == packages[j].name && o.satisfies(mr, packages[j]))
      {
        var pr := packages[k];
        if mr.name != pr.name {
          k := k + 1;
          continue;
        }
        if o.satisfies(mr, pr) {
          assert pr in packages;
          matchedReq := true;
          break;
        }
        k := k + 1;
      }
      if !matchedReq {
        assert mr in reqs;
        matchedAll := false;
        break;
      }
      m := m + 1;
    }
  }

  // The table of parsed packages is filled on demand; whatever it holds agrees with parsing again.
  predicate TableOk(o: Oracle, table: map<Section, seq<Requirement>>) {
    forall s :: s in table ==> table[s] == o.packages(s)
  }

  method MatchSections(o: Oracle, rule: Rule, table: map<Section, seq<Requirement>>)
    returns (matched: bool, table': map<Section, seq<Requirement>>)
    requires TableOk(o, table)
    ensures TableOk(o, table')
    ensures matched == forall s :: s in SECTIONS ==> SectionMatches(o, rule, s)
  {
    table' := table;
    var i := 0;
    while i < |SECTIONS|
      invariant 0 <= i <= |SECTIONS| && TableOk(o, table')
      invariant forall j :: 0 <= j < i ==> SectionMatches(o, rule, SECTIONS[j])
    {
      var section := SECTIONS[i];
      if section in rule.requirements && rule.requirements[section] != [] {
        if section !in table' || table'[section] == [] {
          table' := table'[section := o.packages(section)];
        }
        var ok := MatchRequirements(o, rule.requirements[section], table'[section]);
        if !ok {
          assert section in SECTIONS && !SectionMatches(o, rule, section);
          return false, table';
        }
      }
      i := i + 1;
    }
    matched := true;
  }

  // ---------------------------------------------------------------- the rulebook

  // The first matching rule from index i on; the number of rules when there is none.
  function FirstMatch(o: Oracle, rules: seq<Rule>, lookups: seq<Lookup>, i: nat): (k: nat)
    requires i <= |rules|
    ensures i <= k <= |rules|
    ensures k < |rules| ==> Matches(o, rules[k], lookups)
    ensures forall j :: i <= j < k ==> !Matches(o, rules[j], lookups)
    decreases |rules| - i
  {
    if i == |rules| || Matches(o, rules[i], lookups) then i else FirstMatch(o, rules, lookups, i + 1)
  }

  function ScriptText(s: Script): string {
    match s
    case Text(text) => text
    case Lines(lines) => Join(lines, '\n')
  }

  // A script that is a text is used as it is, and the lines of the others can be told from their text.
  lemma ScriptTextMeaning(s: Script)
    ensures s.Text? ==> ScriptText(s) == s.text
    ensures s.Lines? && s.lines != [] && (forall l :: l in s.lines ==> '\n' !in l) ==>
      Split(ScriptText(s), '\n') == s.lines
  {
    if s.Lines? && s.lines != [] && forall l :: l in s.lines ==> '\n' !in l {
      SplitJoin(s.lines, '\n');
    }
  }

  // The container of a task; an empty text stands for a missing entry.
  datatype Values = Values(image: string, arguments: string, script: string, force: bool, updateBack: Option<bool>)

  function Fill(own: string, given: string, force: bool): string {
    if own == "" || force then given else own
  }

  function Filled(c: Values, rule: Rule, updateDefault: Option<bool>): Values {
    Values(
      Fill(c.image, rule.image, rule.force),
      Fill(c.arguments, rule.arguments, rule.force),
      Fill(c.script, ScriptText(rule.script), rule.force),
      rule.force,
      if rule.updateBack.Some? then rule.updateBack else updateDefault)
  }

  class Container {
    var image: string
    var arguments: string
    var script: string
    var force: bool
    var updateBack: Option<bool>

    function Get(): Values reads this { Values(image, arguments, script, force, updateBack) }

    constructor (v: Values) ensures Get() == v {
      image, arguments, script, force, updateBack := v.image, v.arguments, v.script, v.force, v.updateBack;
    }

    method Update(rule: Rule, updateDefault: Option<bool>)
      modifies this
      ensures Get() == Filled(old(Get()), rule, updateDefault)
    {
      force := rule.force;
      if image == "" || rule.force {
        image := rule.image;
      }
      if arguments == "" || rule.force {
        arguments := rule.arguments;
      }
      if script == "" || rule.force {
        script := ScriptText(rule.script);
      }
      updateBack := if rule.updateBack.Some? then rule.updateBack else updateDefault;
    }
  }

  // `enabled`: the server supports rules, rules are configured, and the caller does not ignore them.
  // Returns the index of the rule used; the number of rules when none is.
  method ResolveDefaultContainer(
      o: Oracle, rules: seq<Rule>, lookups: seq<Lookup>, enabled: bool, updateDefault: Option<bool>,
      container: Container)
    returns (used: nat)
    modifies container
    ensures used <= |rules| && (!enabled ==> used == |rules|)
    ensures used < |rules| ==> Matches(o, rules[used], lookups)
    ensures enabled ==> forall j :: 0 <= j < used ==> !Matches(o, rules[j], lookups)
    ensures used == |rules| ==> container.Get() == old(container.Get())
    ensures used < |rules| ==>
      var rule := rules[used];
      && container.image == (if old(container.image) == "" || rule.force then rule.image else old(container.image))
      && container.arguments
           == (if old(container.arguments) == "" || rule.force then rule.arguments else old(container.arguments))
      && container.script == (if old(container.script) == "" || rule.force then ScriptText(rule.script)
                              else old(container.script))
      && container.force == rule.force
      && container.updateBack == if rule.updateBack.Some? then rule.updateBack else updateDefault
  {
    if !enabled {
      return |rules|;
    }
    var table: map<Section, seq<Requirement>> := map[];
    var i := 0;
    while i < |rules|
      invariant 0 <= i <= |rules| && TableOk(o, table)
      invariant container.Get() == old(container.Get())
      invariant FirstMatch(o, rules, lookups, i) == FirstMatch(o, rules, lookups, 0)
    {
      var rule := rules[i];
      if !rule.given {
        i := i + 1;
        continue;
      }
      var matched := MatchTerms(o, rule, lookups);
      if !matched {
        i := i + 1;
        continue;
      }
      matched, table := MatchSections(o, rule, table);
      if matched {
        container.Update(rule, updateDefault);
        return i;
      }
      i := i + 1;
    }
    used := |rules|;
  }

  // Whatever the one rule constrains, the other constrains at least as much.
  predicate Looser(a: Rule, b: Rule) {
    && (forall k :: k in a.terms && a.terms[k] != [] ==>
          k in b.terms && forall t :: t in a.terms[k] ==> t in b.terms[k])
    && (forall s :: s in a.requirements && a.requirements[s] != [] ==>
          s in b.requirements && forall r :: r in a.requirements[s] ==> r in b.requirements[s])
  }

  // A rule behind a looser one is never used.
  lemma LooserRuleShadows(o: Oracle, rules: seq<Rule>, lookups: seq<Lookup>, i: nat, j: nat)
    requires i < j < |rules| && rules[i].given && Looser(rules[i], rules[j])
    ensures FirstMatch(o, rules, lookups, 0) != j
  {
    if Matches(o, rules[j], lookups) {
      forall l | l in lookups ensures KeyMatches(o, rules[i], l) {
        assert KeyMatches(o, rules[j], l);
      }
      forall s | s in SECTIONS ensures SectionMatches(o, rules[i], s) {
        assert SectionMatches(o, rules[j], s);
      }
      assert Matches(o, rules[i], lookups);
    }
  }
}
