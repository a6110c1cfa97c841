/**
 The layered configuration: files, vault overrides, environment variables and the priority overlay are
 merged on top of each other, starting from the configuration of the previous load.
 */
module LayeredConfig {
  import opened Trees

  // ---------------------------------------------------------------- folding layers

  predicate AllNodes(ts: seq<Tree>) { forall i :: 0 <= i < |ts| ==> ts[i].Node? }

  function Fold(c: Tree, ts: seq<Tree>): Tree
    decreases |ts|
  {
    if ts == [] then c else Fold(Merge(c, ts[0]), ts[1..])
  }

  lemma {:induction false} FoldConcat(c: Tree, a: seq<Tree>, b: seq<Tree>)
    ensures Fold(c, a + b) == Fold(Fold(c, a), b)
    decreases |a|
  {
    if a == [] {
      assert a + b == b;
    } else {
      assert (a + b)[1..] == a[1..] + b;
      FoldConcat(Merge(c, a[0]), a[1..], b);
    }
  }

  lemma {:induction false} FoldNode(c: Tree, ts: seq<Tree>)
    requires c.Node? && AllNodes(ts)
    ensures Fold(c, ts).Node?
    decreases |ts|
  {
    if ts != [] {
      FoldNode(Merge(c, ts[0]), ts[1..]);
    }
  }

  // The values that the layers give to one key.
  function Column(ts: seq<Tree>, k: string): seq<Tree> {
    if ts == [] then []
    else (if ts[0].Node? && k in ts[0].entries then [ts[0].entries[k]] else []) + Column(ts[1..], k)
  }

  // What a fold leaves at a key depends on what was there and on the key's column only; a missing value
  // counts as null, which every layer replaces.
  lemma {:induction false} FoldEntry(c: Tree, ts: seq<Tree>, k: string)
    requires c.Node? && AllNodes(ts)
    ensures Fold(c, ts).Node?
    ensures k in Fold(c, ts).entries <==> k in c.entries || Column(ts, k) != []
    ensures k in Fold(c, ts).entries ==> Fold(c, ts).entries[k] == Fold(Get(c.entries, k, Null), Column(ts, k))
    decreases |ts|
  {
    FoldNode(c, ts);
    if ts != [] {
      var next := Merge(c, ts[0]);
      FoldEntry(next, ts[1..], k);
      if k in ts[0].entries {
        var column := Column(ts, k);
        assert column[0] == ts[0].entries[k] && column[1..] == Column(ts[1..], k);
        assert Get(next.entries, k, Null) == Merge(Get(c.entries, k, Null), ts[0].entries[k]);
      } else {
        assert Column(ts, k) == Column(ts[1..], k);
        assert Get(next.entries, k, Null) == Get(c.entries, k, Null);
      }
    }
  }

  // ---------------------------------------------------------------- loading twice

  // A bound on the nesting depth.
  predicate Within(t: Tree, n: nat) {
    t.Node? ==> n > 0 && forall k :: k in t.entries ==> Within(t.entries[k], n - 1)
  }

  lemma {:induction false} WithinMore(t: Tree, n: nat, m: nat)
    requires Within(t, n) && n <= m
    ensures Within(t, m)
    decreases n
  {
    if t.Node? {
      forall k | k in t.entries ensures Within(t.entries[k], m - 1) {
        WithinMore(t.entries[k], n - 1, m - 1);
      }
    }
  }

  lemma {:induction false} HasDepth(t: Tree) returns (n: nat)
    ensures Within(t, n)
    decreases t, if t.Node? then |t.entries.Keys| + 2 else 0
  {
    if t.Node? {
      n := EntriesHaveDepth(t, t.entries.Keys);
      n := n + 1;
    } else {
      n := 0;
    }
  }

  lemma {:induction false} EntriesHaveDepth(t: Tree, keys: set<string>) returns (n: nat)
    requires t.Node? && keys <= t.entries.Keys
    ensures forall k :: k in keys ==> Within(t.entries[k], n)
    decreases t, |keys| + 1
  {
    n := 0;
    if keys != {} {
      var k :| k in keys;
      assert t.entries[k] < t;
      var a := HasDepth(t.entries[k]);
      var b := EntriesHaveDepth(t, keys - {k});
      n := if a >= b then a else b;
      forall j | j in keys ensures Within(t.entries[j], n) {
        WithinMore(t.entries[j], if j == k then a else b, n);
      }
    }
  }

  lemma {:induction false} LayersHaveDepth(ts: seq<Tree>) returns (n: nat)
    ensures forall i :: 0 <= i < |ts| ==> Within(ts[i], n)
  {
    n := 0;
    if ts != [] {
      var a := HasDepth(ts[0]);
      var b := LayersHaveDepth(ts[1..]);
      n := if a >= b then a else b;
      forall i | 0 <= i < |ts| ensures Within(ts[i], n) {
        if i == 0 {
          WithinMore(ts[0], a, n);
        } else {
          assert ts[i] == ts[1..][i - 1];
          WithinMore(ts[i], b, n);
        }
      }
    }
  }

  lemma {:induction false} ColumnWithin(ts: seq<Tree>, k: string, n: nat)
    requires forall i :: 0 <= i < |ts| ==> Within(ts[i], n + 1)
    ensures forall i :: 0 <= i < |Column(ts, k)| ==> Within(Column(ts, k)[i], n)
  {
    if ts != [] {
      assert forall i :: 0 <= i < |ts[1..]| ==> ts[1..][i] == ts[i + 1];
      ColumnWithin(ts[1..], k, n);
    }
  }

  // A leaf among the layers hides everything below it.
  lemma {:induction false} LeafHidesStart(c: Tree, d: Tree, ts: seq<Tree>, i: nat)
    requires i < |ts| && !ts[i].Node?
    ensures Fold(c, ts) == Fold(d, ts)
    decreases |ts|
  {
    if i > 0 {
      LeafHidesStart(Merge(c, ts[0]), Merge(d, ts[0]), ts[1..], i - 1);
    }
  }

  lemma {:induction false} FoldTwice(c: Tree, ts: seq<Tree>, n: nat)
    requires forall i :: 0 <= i < |ts| ==> Within(ts[i], n)
    ensures Fold(Fold(c, ts), ts) == Fold(c, ts)
    decreases n, if c.Node? then 0 else 1
  {
    if ts == [] {
    } else if !AllNodes(ts) {
      var i :| 0 <= i < |ts| && !ts[i].Node?;
      LeafHidesStart(Fold(c, ts), c, ts, i);
    } else if !c.Node? {
      MergeIntoEmpty(ts[0]);
      FoldTwice(EMPTY, ts, n);
    } else {
      var d := Fold(c, ts);
      FoldNode(c, ts);
      FoldNode(d, ts);
      assert ts[0].Node?;
      forall k ensures k in Fold(d, ts).entries <==> k in d.entries
               ensures k in d.entries ==> Fold(d, ts).entries[k] == d.entries[k]
      {
        FoldEntry(c, ts, k);
        FoldEntry(d, ts, k);
        ColumnWithin(ts, k, n - 1);
        FoldTwice(Get(c.entries, k, Null), Column(ts, k), n - 1);
      }
      assert Fold(d, ts).entries == d.entries;
    }
  }

  // ---------------------------------------------------------------- which layer decides

  function Lookup(t: Tree, path: seq<string>): Tree
    decreases |path|
  {
    if path == [] then t
    else if t.Node? && path[0] in t.entries then Lookup(t.entries[path[0]], path[1..])
    else EMPTY
  }

  // The path holds a scalar or a list (here and below, "leaf" is anything that is not a dictionary).
  predicate SetsLeaf(t: Tree, path: seq<string>, v: Tree) { Lookup(t, path) == v && !v.Node? }

  // The layer has something to say at the path: a value there, or a leaf above it.
  predicate Touches(t: Tree, path: seq<string>)
    decreases |path|
  {
    path == [] || !t.Node? || (path[0] in t.entries && Touches(t.entries[path[0]], path[1..]))
  }

  lemma {:induction false} LeafAfterMerge(a: Tree, b: Tree, path: seq<string>, v: Tree)
    requires a.Node? && b.Node?
    ensures SetsLeaf(Merge(a, b), path, v) <==>
      SetsLeaf(b, path, v) || (!Touches(b, path) && SetsLeaf(a, path, v))
    decreases |path|
  {
    if path != [] {
      MergeEntry(a.entries, b.entries, path[0]);
      if path[0] in a.entries && path[0] in b.entries {
        var x, y := a.entries[path[0]], b.entries[path[0]];
        if x.Node? && y.Node? {
          LeafAfterMerge(x, y, path[1..], v);
        } else {
          assert Merge(x, y) == y;
          assert Touches(y, path[1..]) || !SetsLeaf(x, path[1..], v);
        }
      }
    }
  }

  // The last layer that touches the path gives it the leaf.
  predicate Decided(ts: seq<Tree>, path: seq<string>, v: Tree) {
    ts != [] &&
    (SetsLeaf(ts[|ts| - 1], path, v) || (!Touches(ts[|ts| - 1], path) && Decided(ts[..|ts| - 1], path, v)))
  }

  predicate Untouched(ts: seq<Tree>, path: seq<string>) {
    forall i :: 0 <= i < |ts| ==> !Touches(ts[i], path)
  }

  // A leaf in the result is decided by the last layer that touches its path, or, if none does, it was
  // there before the load.
  lemma {:induction false} LeafIsDecided(c: Tree, ts: seq<Tree>, path: seq<string>, v: Tree)
    requires c.Node? && AllNodes(ts)
    ensures SetsLeaf(Fold(c, ts), path, v) <==>
      Decided(ts, path, v) || (Untouched(ts, path) && SetsLeaf(c, path, v))
  {
    if ts != [] {
      var init, last := ts[..|ts| - 1], ts[|ts| - 1];
      assert ts == init + [last];
      FoldConcat(c, init, [last]);
      FoldNode(c, init);
      assert Fold(Fold(c, init), [last]) == Merge(Fold(c, init), last);
      LeafIsDecided(c, init, path, v);
      LeafAfterMerge(Fold(c, init), last, path, v);
      assert Untouched(ts, path) <==> Untouched(init, path) && !Touches(last, path);
    }
  }

  lemma {:induction false} DecidedConcat(a: seq<Tree>, b: seq<Tree>, path: seq<string>, v: Tree)
    ensures Decided(a + b, path, v) <==> Decided(b, path, v) || (Untouched(b, path) && Decided(a, path, v))
  {
    if b == [] {
      assert a + b == a;
    } else {
      var n := |b| - 1;
      assert (a + b)[..|a + b| - 1] == a + b[..n];
      DecidedConcat(a, b[..n], path, v);
      assert Untouched(b, path) <==> Untouched(b[..n], path) && !Touches(b[n], path);
    }
  }

  // ---------------------------------------------------------------- the sources

  // An environment variable registered for a configuration key; keys of list elements are not re-applied.
  datatype EnvVar = EnvVar(path: seq<string>, listKey: bool, value: string)

  datatype Sources = Sources(files: seq<Tree>, extra: Tree, env: string, environ: seq<EnvVar>)

  predicate Applies(e: EnvVar) { e.path != [] && !e.listKey && e.value != "" }

  // Puts a leaf at a path; a leaf on the way is replaced by a dictionary.
  function Put(m: map<string, Tree>, path: seq<string>, v: Tree): map<string, Tree>
    requires path != []
    decreases |path|
  {
    if |path| == 1 then m[path[0] := v]
    else m[path[0] := Node(Put(Children(Get(m, path[0], Null)), path[1..], v))]
  }

  // The tree with a single leaf.
  function Single(path: seq<string>, v: Tree): Tree
    requires path != []
    decreases |path|
  {
    Node(map[path[0] := if |path| == 1 then v else Single(path[1..], v)])
  }

  lemma {:induction false} PutIsMerge(m: map<string, Tree>, path: seq<string>, v: Tree)
    requires path != [] && !v.Node?
    ensures Node(Put(m, path, v)) == Merge(Node(m), Single(path, v))
    decreases |path|
  {
    var key := path[0];
    var s := Single(path, v).entries;
    if |path| > 1 {
      var below := Children(Get(m, key, Null));
      PutIsMerge(below, path[1..], v);
      MergeIntoEmpty(s[key]);
      assert MergeAt(m, s, key) == Merge(Node(below), s[key]);
    }
    MergeEntry(m, s, key);
    assert Merge(Node(m), Node(s)).entries == m[key := MergeAt(m, s, key)];
  }

  function EnvLayers(environ: seq<EnvVar>): (ts: seq<Tree>)
    ensures AllNodes(ts)
  {
    if environ == [] then []
    else
      (if Applies(environ[0]) then [Single(environ[0].path, Leaf(environ[0].value))] else []) + EnvLayers(environ[1..])
  }

  function FileLayers(s: Sources): seq<Tree> { s.files + [s.extra] }

  function AgentLayers(s: Sources): seq<Tree> { [Single(["env"], Leaf(s.env))] + EnvLayers(s.environ) }

  // All layers in the order in which they are applied.
  function Layers(s: Sources, overrides: seq<Tree>, priority: seq<Tree>): seq<Tree> {
    FileLayers(s) + overrides + AgentLayers(s) + priority
  }

  predicate ValidSources(s: Sources) { AllNodes(s.files) && s.extra.Node? }

  class Config {
    var config: map<string, Tree>
    var overrides: seq<Tree>
    var priority: seq<Tree>

    predicate Valid() reads this { AllNodes(overrides) && AllNodes(priority) }

    constructor ()
      ensures Valid() && config == map[] && overrides == [] && priority == []
    {
      config, overrides, priority := map[], [], [];
    }

    method ApplyEnvironmentOverrides(start: map<string, Tree>, environ: seq<EnvVar>) returns (result: map<string, Tree>)
      ensures Node(result) == Fold(Node(start), EnvLayers(environ))
    {
      result := start;
      var left := environ;
      while left != []
        invariant Fold(Node(result), EnvLayers(left)) == Fold(Node(start), EnvLayers(environ))
        decreases |left|
      {
        var e := left[0];
        if Applies(e) {
          PutIsMerge(result, e.path, Leaf(e.value));
          var layer := Single(e.path, Leaf(e.value));
          assert ([layer] + EnvLayers(left[1..]))[1..] == EnvLayers(left[1..]);
          result := Put(result, e.path, Leaf(e.value));
        } else {
          assert [] + EnvLayers(left[1..]) == EnvLayers(left[1..]);
        }
        left := left[1..];
      }
    }

    method Reload(s: Sources)
      requires Valid() && ValidSources(s)
      modifies this`config
      ensures Node(config) == Fold(Node(old(config)), Layers(s, overrides, priority))
    {
      var start := Node(config);
      var c := Fold(start, s.files);
      FoldConcat(start, s.files, [s.extra]);
      c := Merge(c, s.extra);
      FoldNode(start, FileLayers(s));
      FoldConcat(start, FileLayers(s), overrides);
      if overrides != [] {
        c := Fold(c, overrides);
      }
      FoldNode(start, FileLayers(s) + overrides);
      PutIsMerge(c.entries, ["env"], Leaf(s.env));
      var entries := Put(c.entries, ["env"], Leaf(s.env));
      FoldConcat(c, [Single(["env"], Leaf(s.env))], EnvLayers(s.environ));
      FoldConcat(start, FileLayers(s) + overrides, AgentLayers(s));
      entries := ApplyEnvironmentOverrides(entries, s.environ);
      FoldConcat(start, FileLayers(s) + overrides + AgentLayers(s), priority);
      c := Node(entries);
      if priority != [] {
        c := Fold(c, priority);
      }
      FoldNode(Node(entries), priority);
      config := c.entries;
    }

    method SetOverrides(s: Sources, trees: seq<Tree>)
      requires Valid() && ValidSources(s) && AllNodes(trees)
      modifies this
      ensures Valid() && overrides == trees && priority == old(priority)
      ensures Node(config) == Fold(Node(old(config)), Layers(s, trees, priority))
    {
      overrides := trees;
      Reload(s);
    }

    method SetPriorityOverrides(s: Sources, trees: seq<Tree>)
      requires Valid() && ValidSources(s) && AllNodes(trees)
      modifies this
      ensures Valid() && priority == trees && overrides == old(overrides)
      ensures Node(config) == Fold(Node(old(config)), Layers(s, overrides, trees))
    {
      priority := trees;
      Reload(s);
    }
  }

  // ---------------------------------------------------------------- what a reload guarantees

  // With unchanged sources a second reload changes nothing, although it starts from the first one's result.
  lemma ReloadIsIdempotent(c: Tree, s: Sources, overrides: seq<Tree>, priority: seq<Tree>)
    ensures
      var layers := Layers(s, overrides, priority);
      Fold(Fold(c, layers), layers) == Fold(c, layers)
  {
    var layers := Layers(s, overrides, priority);
    var n := LayersHaveDepth(layers);
    FoldTwice(c, layers, n);
  }

  lemma AllLayersAreNodes(s: Sources, overrides: seq<Tree>, priority: seq<Tree>)
    requires ValidSources(s) && AllNodes(overrides) && AllNodes(priority)
    ensures AllNodes(Layers(s, overrides, priority))
  {
  }

  // Neither path leads on from the other.
  predicate Apart(p: seq<string>, q: seq<string>) { !(p <= q) && !(q <= p) }

  // A single leaf says something at its own path, below it and above it.
  lemma {:induction false} SingleMeaning(p: seq<string>, text: string, q: seq<string>, v: Tree)
    requires p != []
    ensures Touches(Single(p, Leaf(text)), q) <==> !Apart(p, q)
    ensures SetsLeaf(Single(p, Leaf(text)), q, v) <==> q == p && v == Leaf(text)
    decreases |p|
  {
    if q != [] {
      assert p == [p[0]] + p[1..] && q == [q[0]] + q[1..];
      if p[0] == q[0] {
        if |p| > 1 {
          SingleMeaning(p[1..], text, q[1..], v);
        } else {
          var leaf, rest := Leaf(text), q[1..];
          assert Single(p, leaf).entries[q[0]] == leaf;
          assert Lookup(leaf, rest) == if rest == [] then leaf else EMPTY;
          assert rest == [] <==> q == p;
        }
      } else {
        assert Lookup(Single(p, Leaf(text)), q) == EMPTY && p != q;
      }
    }
  }

  lemma {:induction false} EnvSnoc(environ: seq<EnvVar>, e: EnvVar)
    ensures EnvLayers(environ + [e]) ==
      EnvLayers(environ) + if Applies(e) then [Single(e.path, Leaf(e.value))] else []
  {
    var last := if Applies(e) then [Single(e.path, Leaf(e.value))] else [];
    if environ == [] {
      assert [] + [e] == [e] && [e][1..] == [] && last + [] == last == [] + last;
    } else {
      assert (environ + [e])[0] == environ[0] && (environ + [e])[1..] == environ[1..] + [e];
      EnvSnoc(environ[1..], e);
      var head := if Applies(environ[0]) then [Single(environ[0].path, Leaf(environ[0].value))] else [];
      assert (head + EnvLayers(environ[1..])) + last == head + (EnvLayers(environ[1..]) + last);
    }
  }

  // The variable is set, and not one of a list element.
  predicate IsSet(e: EnvVar) { e.value != "" && !e.listKey && e.path != [] }

  // Variable k is set for this very path and text, and no later one is set for the path, above it or below it.
  predicate LastSet(environ: seq<EnvVar>, k: nat, path: seq<string>, v: Tree)
    requires k < |environ|
  {
    && IsSet(environ[k]) && environ[k].path == path && v == Leaf(environ[k].value)
    && forall j :: k < j < |environ| && IsSet(environ[j]) ==> Apart(environ[j].path, path)
  }

  // One more variable adds the layer that it stands for, if it is set.
  lemma EnvironmentSnoc(init: seq<EnvVar>, e: EnvVar, path: seq<string>, v: Tree)
    ensures
      var before, after := EnvLayers(init), EnvLayers(init + [e]);
      && (Untouched(after, path) <==> Untouched(before, path) && (IsSet(e) ==> Apart(e.path, path)))
      && (Decided(after, path, v) <==>
            || (IsSet(e) && e.path == path && v == Leaf(e.value))
            || ((IsSet(e) ==> Apart(e.path, path)) && Decided(before, path, v)))
  {
    EnvSnoc(init, e);
    if Applies(e) {
      var layer := Single(e.path, Leaf(e.value));
      SingleMeaning(e.path, e.value, path, v);
      UntouchedConcat(EnvLayers(init), [layer], path);
      DecidedConcat(EnvLayers(init), [layer], path, v);
      OneLayer(layer, path, v);
    } else {
      assert EnvLayers(init) + [] == EnvLayers(init);
    }
  }

  // What the environment decides: the last set variable for the path counts.
  lemma {:induction false} EnvironmentMeaning(environ: seq<EnvVar>, path: seq<string>, v: Tree)
    ensures Untouched(EnvLayers(environ), path) <==>
      forall j :: 0 <= j < |environ| && IsSet(environ[j]) ==> Apart(environ[j].path, path)
    ensures Decided(EnvLayers(environ), path, v) <==> exists k :: 0 <= k < |environ| && LastSet(environ, k, path, v)
  {
    if environ != [] {
      var n := |environ| - 1;
      var init, e := environ[..n], environ[n];
      assert environ == init + [e];
      EnvironmentMeaning(init, path, v);
      EnvironmentSnoc(init, e, path, v);
      LastSetSnoc(init, e, path, v);
    }
  }

  lemma LastSetSnoc(init: seq<EnvVar>, e: EnvVar, path: seq<string>, v: Tree)
    ensures (exists k :: 0 <= k < |init + [e]| && LastSet(init + [e], k, path, v)) <==>
      || (IsSet(e) && e.path == path && v == Leaf(e.value))
      || ((IsSet(e) ==> Apart(e.path, path)) && exists k :: 0 <= k < |init| && LastSet(init, k, path, v))
  {
    var all, n := init + [e], |init|;
    assert all[n] == e && forall j :: 0 <= j < n ==> all[j] == init[j];
    assert LastSet(all, n, path, v) <==> IsSet(e) && e.path == path && v == Leaf(e.value);
    forall k | 0 <= k < n
      ensures LastSet(all, k, path, v) <==> (IsSet(e) ==> Apart(e.path, path)) && LastSet(init, k, path, v)
    {
    }
  }

  // Precedence: the value of a leaf comes from the priority overlay if that touches the path; otherwise from the
  // environment variables, otherwise from the name of the environment, which is stored as "env", otherwise from the
  // vault overrides, otherwise from the extra values, otherwise from the files, and otherwise it is left over from
  // before the reload.
  lemma Precedence(
      c: Tree, s: Sources, overrides: seq<Tree>, priority: seq<Tree>, path: seq<string>, v: Tree)
    requires c.Node? && ValidSources(s) && AllNodes(overrides) && AllNodes(priority)
    ensures SetsLeaf(Fold(c, Layers(s, overrides, priority)), path, v) <==>
      if !Untouched(priority, path) then Decided(priority, path, v)
      else if exists j :: 0 <= j < |s.environ| && IsSet(s.environ[j]) && !Apart(s.environ[j].path, path) then
        exists k :: 0 <= k < |s.environ| && LastSet(s.environ, k, path, v)
      else if path == [] || path[0] == "env" then path == ["env"] && v == Leaf(s.env)
      else if !Untouched(overrides, path) then Decided(overrides, path, v)
      else if Touches(s.extra, path) then SetsLeaf(s.extra, path, v)
      else if !Untouched(s.files, path) then Decided(s.files, path, v)
      else SetsLeaf(c, path, v)
  {
    GroupPrecedence(c, s, overrides, priority, path, v);
    EnvironmentMeaning(s.environ, path, v);
    AgentMeaning(s, path, v);
    FilesMeaning(s, path, v);
  }

  lemma AgentMeaning(s: Sources, path: seq<string>, v: Tree)
    ensures Untouched(AgentLayers(s), path) <==> Untouched(EnvLayers(s.environ), path) && path != [] && path[0] != "env"
    ensures Decided(AgentLayers(s), path, v) <==>
      if !Untouched(EnvLayers(s.environ), path) then Decided(EnvLayers(s.environ), path, v)
      else path == ["env"] && v == Leaf(s.env)
  {
    var name := Single(["env"], Leaf(s.env));
    SingleMeaning(["env"], s.env, path, v);
    assert Apart(["env"], path) <==> path != [] && path[0] != "env" by {
      assert !Apart(["env"][1..], if path == [] then [] else path[1..]);
    }
    UntouchedConcat([name], EnvLayers(s.environ), path);
    DecidedConcat([name], EnvLayers(s.environ), path, v);
    UntouchedDecidesNothing(EnvLayers(s.environ), path, v);
    OneLayer(name, path, v);
  }

  lemma OneLayer(t: Tree, path: seq<string>, v: Tree)
    ensures Untouched([t], path) <==> !Touches(t, path)
    ensures Decided([t], path, v) <==> SetsLeaf(t, path, v)
  {
    assert [t][0] == t && [t][..0] == [];
  }

  lemma FilesMeaning(s: Sources, path: seq<string>, v: Tree)
    ensures Untouched(FileLayers(s), path) <==> Untouched(s.files, path) && !Touches(s.extra, path)
    ensures Decided(FileLayers(s), path, v) <==>
      if Touches(s.extra, path) then SetsLeaf(s.extra, path, v) else Decided(s.files, path, v)
  {
    UntouchedConcat(s.files, [s.extra], path);
    DecidedConcat(s.files, [s.extra], path, v);
    OneLayer(s.extra, path, v);
    if SetsLeaf(s.extra, path, v) { LeafTouches(s.extra, path, v); }
  }

  // The same by groups of layers.
  lemma GroupPrecedence(
      c: Tree, s: Sources, overrides: seq<Tree>, priority: seq<Tree>, path: seq<string>, v: Tree)
    requires c.Node? && ValidSources(s) && AllNodes(overrides) && AllNodes(priority)
    ensures SetsLeaf(Fold(c, Layers(s, overrides, priority)), path, v) <==>
      if !Untouched(priority, path) then Decided(priority, path, v)
      else if !Untouched(AgentLayers(s), path) then Decided(AgentLayers(s), path, v)
      else if !Untouched(overrides, path) then Decided(overrides, path, v)
      else if !Untouched(FileLayers(s), path) then Decided(FileLayers(s), path, v)
      else SetsLeaf(c, path, v)
  {
    AllLayersAreNodes(s, overrides, priority);
    LeafIsDecided(c, Layers(s, overrides, priority), path, v);
    DecidedConcat(FileLayers(s) + overrides + AgentLayers(s), priority, path, v);
    DecidedConcat(FileLayers(s) + overrides, AgentLayers(s), path, v);
    DecidedConcat(FileLayers(s), overrides, path, v);
    UntouchedConcat(FileLayers(s) + overrides + AgentLayers(s), priority, path);
    UntouchedConcat(FileLayers(s) + overrides, AgentLayers(s), path);
    UntouchedConcat(FileLayers(s), overrides, path);
    UntouchedDecidesNothing(priority, path, v);
    UntouchedDecidesNothing(AgentLayers(s), path, v);
    UntouchedDecidesNothing(overrides, path, v);
    UntouchedDecidesNothing(FileLayers(s), path, v);
  }

  lemma UntouchedConcat(a: seq<Tree>, b: seq<Tree>, path: seq<string>)
    ensures Untouched(a + b, path) <==> Untouched(a, path) && Untouched(b, path)
  {
    assert forall i :: 0 <= i < |a| ==> (a + b)[i] == a[i];
    assert forall i :: 0 <= i < |b| ==> (a + b)[|a| + i] == b[i];
  }

  lemma {:induction false} LeafTouches(t: Tree, path: seq<string>, v: Tree)
    requires SetsLeaf(t, path, v)
    ensures Touches(t, path)
    decreases |path|
  {
    if path != [] && t.Node? && path[0] in t.entries {
      LeafTouches(t.entries[path[0]], path[1..], v);
    }
  }

  lemma {:induction false} UntouchedDecidesNothing(ts: seq<Tree>, path: seq<string>, v: Tree)
    ensures Untouched(ts, path) ==> !Decided(ts, path, v)
  {
    if ts != [] {
      assert ts[|ts| - 1] in ts;
      UntouchedDecidesNothing(ts[..|ts| - 1], path, v);
      if SetsLeaf(ts[|ts| - 1], path, v) {
        LeafTouches(ts[|ts| - 1], path, v);
      }
    }
  }

  lemma LeftOver(
      c: Tree, s: Sources, first: seq<Tree>, second: seq<Tree>, priority: seq<Tree>, path: seq<string>, v: Tree)
    requires c.Node? && ValidSources(s) && AllNodes(first) && AllNodes(second) && AllNodes(priority)
    requires Decided(first, path, v) && Untouched(Layers(s, second, priority), path)
    ensures SetsLeaf(Fold(Fold(c, Layers(s, first, priority)), Layers(s, second, priority)), path, v)
  {
    var once := Fold(c, Layers(s, first, priority));
    AllLayersAreNodes(s, first, priority);
    AllLayersAreNodes(s, second, priority);
    FoldNode(c, Layers(s, first, priority));
    UntouchedConcat(FileLayers(s) + second + AgentLayers(s), priority, path);
    UntouchedConcat(FileLayers(s) + second, AgentLayers(s), path);
    GroupPrecedence(c, s, first, priority, path, v);
    LeafIsDecided(once, Layers(s, second, priority), path, v);
    UntouchedDecidesNothing(first, path, v);
  }

  // Replacing the overrides does not take back what the replaced ones had set: a value that they decided is in
  // force without any current layer deciding it exactly when no current layer touches its path.
  lemma ReplacedOverrideLingers(
      c: Tree, s: Sources, first: seq<Tree>, second: seq<Tree>, priority: seq<Tree>, path: seq<string>, v: Tree)
    requires c.Node? && ValidSources(s) && AllNodes(first) && AllNodes(second) && AllNodes(priority)
    requires Decided(first, path, v)
    ensures
      var layers := Layers(s, second, priority);
      var twice := Fold(Fold(c, Layers(s, first, priority)), layers);
      SetsLeaf(twice, path, v) && !Decided(layers, path, v) <==> Untouched(layers, path)
  {
    var layers := Layers(s, second, priority);
    if Untouched(layers, path) {
      LeftOver(c, s, first, second, priority, path, v);
    }
    AllLayersAreNodes(s, first, priority);
    AllLayersAreNodes(s, second, priority);
    FoldNode(c, Layers(s, first, priority));
    LeafIsDecided(Fold(c, Layers(s, first, priority)), layers, path, v);
    UntouchedDecidesNothing(layers, path, v);
  }

  // Overrides with one leaf, replaced by none: the leaf stays.
  lemma WithdrawnOverrideStays(c: Tree, s: Sources, key: string, value: string)
    requires c.Node? && ValidSources(s) && Untouched(Layers(s, [], []), [key])
    ensures
      var first := [Node(map[key := Leaf(value)])];
      SetsLeaf(Fold(Fold(c, Layers(s, first, [])), Layers(s, [], [])), [key], Leaf(value))
  {
    var t := Node(map[key := Leaf(value)]);
    assert [t][..0] == [] && SetsLeaf(t, [key], Leaf(value));
    LeftOver(c, s, [t], [], [], [key], Leaf(value));
  }
}
