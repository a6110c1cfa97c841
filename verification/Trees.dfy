/**
 Nested dictionaries: the recursive merge and the recursive change set.

 A tree is a dictionary or a leaf; a leaf is the null value, or any scalar or list.
 */
module Trees {

  datatype Tree = Null | Leaf(value: string) | Node(entries: map<string, Tree>)

  function Get(m: map<string, Tree>, k: string, absent: Tree): Tree {
    if k in m then m[k] else absent
  }

  // ---------------------------------------------------------------- merge

  // merge_dicts: dictionaries are merged key by key, anything else is replaced.
  function Merge(a: Tree, b: Tree): Tree
    decreases b
  {
    if !a.Node? || !b.Node? then b
    else
      Node(map k | k in a.entries.Keys + b.entries.Keys ::
        if k !in b.entries then a.entries[k]
        else if k !in a.entries then b.entries[k]
        else Merge(a.entries[k], b.entries[k]))
  }

  lemma {:induction false} MergeSelf(a: Tree)
    ensures Merge(a, a) == a
    decreases a
  {
    if a.Node? {
      forall k | k in a.entries ensures Merge(a.entries[k], a.entries[k]) == a.entries[k] {
        MergeSelf(a.entries[k]);
      }
      assert Merge(a, a).entries == a.entries;
    }
  }

  lemma MergeIntoEmpty(b: Tree)
    ensures Merge(Node(map[]), b) == b
  {
    if b.Node? {
      assert Merge(Node(map[]), b).entries == b.entries;
    }
  }

  // A dictionary that is filled in place.
  class Dict {
    var entries: map<string, Tree>

    constructor (entries: map<string, Tree>)
      ensures this.entries == entries
    {
      this.entries := entries;
    }
  }

  function MergeAt(a: map<string, Tree>, b: map<string, Tree>, k: string): Tree
    requires k in b
  {
    if k in a then Merge(a[k], b[k]) else b[k]
  }

  // The merge as far as the keys in `done` go.
  ghost function MergeSome(a: map<string, Tree>, b: map<string, Tree>, done: set<string>): map<string, Tree> {
    map k | k in a.Keys + b.Keys * done :: if k in b && k in done then MergeAt(a, b, k) else a[k]
  }

  lemma MergeOneMore(a: map<string, Tree>, b: map<string, Tree>, done: set<string>, k: string)
    requires k in b && k !in done
    ensures MergeSome(a, b, done + {k}) == MergeSome(a, b, done)[k := MergeAt(a, b, k)]
    ensures k in MergeSome(a, b, done) <==> k in a
    ensures k in a ==> MergeSome(a, b, done)[k] == a[k]
  {
  }

  lemma MergeNone(a: map<string, Tree>, b: map<string, Tree>)
    ensures MergeSome(a, b, {}) == a
    ensures Merge(Node(a), Node(b)) == Node(MergeSome(a, b, b.Keys))
  {
    assert Merge(Node(a), Node(b)).entries == MergeSome(a, b, b.Keys);
  }

  // The in-place form: the first dictionary is changed key by key.
  method MergeInto(dict1: Dict, dict2: map<string, Tree>)
    modifies dict1
    ensures Node(dict1.entries) == Merge(Node(old(dict1.entries)), Node(dict2))
    decreases Node(dict2)
  {
    ghost var before := dict1.entries;
    MergeNone(before, dict2);
    var left := dict2.Keys;
    ghost var done: set<string> := {};
    while left != {}
      invariant done == dict2.Keys - left && left <= dict2.Keys
      invariant dict1.entries == MergeSome(before, dict2, done)
      decreases |left|
    {
      var k :| k in left;
      left := left - {k};
      MergeOneMore(before, dict2, done, k);
      done := done + {k};
      if k in dict1.entries && dict1.entries[k].Node? && dict2[k].Node? {
        var child := new Dict(dict1.entries[k].entries);
        assert dict2[k] < Node(dict2);
        MergeInto(child, dict2[k].entries);
        dict1.entries := dict1.entries[k := Node(child.entries)];
      } else {
        dict1.entries := dict1.entries[k := dict2[k]];
      }
    }
    assert done == dict2.Keys;
  }

  // ---------------------------------------------------------------- the change set

  function Children(t: Tree): map<string, Tree> { if t.Node? then t.entries else map[] }

  // The keys of the update that are new or different.
  function Changed(org: map<string, Tree>, upd: map<string, Tree>): set<string> {
    set k | k in upd && (k !in org || upd[k] != org[k])
  }

  // Whether the change set of two trees is a partial one: some changed key holds a dictionary.
  predicate Nested(org: Tree, upd: Tree) {
    org.Node? && upd.Node? && SomeNode(upd.entries, Changed(org.entries, upd.entries))
  }

  predicate SomeNode(m: map<string, Tree>, keys: set<string>) {
    exists k :: k in keys && k in m && m[k].Node?
  }

  lemma SomeNodeOneMore(m: map<string, Tree>, keys: set<string>, k: string)
    requires k in m
    ensures SomeNode(m, keys + {k}) <==> SomeNode(m, keys) || m[k].Node?
  {
    if m[k].Node? {
      assert k in keys + {k};
    }
  }

  const EMPTY := Node(map[])

  // What a changed key that is not null gets: a changed dictionary is stored whole unless its own change
  // set is partial.
  function DiffAt(org: map<string, Tree>, upd: map<string, Tree>, k: string): Tree
    requires k in upd
    decreases Node(upd), 0
  {
    if Nested(Get(org, k, EMPTY), upd[k]) then
      assert upd[k] < Node(upd);
      Node(Diff(Get(org, k, EMPTY).entries, upd[k].entries))
    else upd[k]
  }

  // What recursive_diff stores for two dictionaries: changed null values are left out.
  function Diff(org: map<string, Tree>, upd: map<string, Tree>): map<string, Tree>
    decreases Node(upd), 1
  {
    map k | k in upd && k in Changed(org, upd) && !upd[k].Null? :: DiffAt(org, upd, k)
  }

  ghost function DiffSome(org: map<string, Tree>, upd: map<string, Tree>, done: set<string>): map<string, Tree> {
    map k | k in upd && k in Changed(org, upd) && k in done && !upd[k].Null? :: DiffAt(org, upd, k)
  }

  lemma DiffOneMore(
      org: map<string, Tree>, upd: map<string, Tree>, done: set<string>, k: string, before: map<string, Tree>)
    requires k in Changed(org, upd) && k !in done
    ensures before + DiffSome(org, upd, done + {k})
      == if upd[k].Null? then before + DiffSome(org, upd, done)
         else (before + DiffSome(org, upd, done))[k := DiffAt(org, upd, k)]
  {
    assert upd[k].Null? ==> DiffSome(org, upd, done + {k}) == DiffSome(org, upd, done);
  }

  lemma DiffNone(org: map<string, Tree>, upd: map<string, Tree>, before: map<string, Tree>)
    ensures before + DiffSome(org, upd, {}) == before
    ensures DiffSome(org, upd, Changed(org, upd)) == Diff(org, upd)
  {
  }

  // A changed dictionary: its own change set if that is partial, and otherwise the whole dictionary.
  method DiffDict(org: map<string, Tree>, upd: map<string, Tree>, k: string) returns (change: Tree)
    requires k in upd
    ensures change == DiffAt(org, upd, k)
    decreases Node(upd), 0
  {
    var child := new Dict(map[]);
    assert upd[k] < Node(upd);
    var partial := RecursiveDiff(Get(org, k, EMPTY), upd[k], child);
    assert partial ==> child.entries == Diff(Get(org, k, EMPTY).entries, upd[k].entries);
    change := if partial then Node(child.entries) else upd[k];
  }

  // The in-place form, filling the caller's dictionary.
  method RecursiveDiff(org: Tree, upd: Tree, out: Dict) returns (nested: bool)
    modifies out
    ensures nested == Nested(org, upd)
    ensures out.entries == old(out.entries) + (if org.Node? && upd.Node? then Diff(org.entries, upd.entries) else map[])
    decreases upd, 1
  {
    ghost var before := out.entries;
    if !org.Node? || !upd.Node? {
      assert before + map[] == before;
      return false;
    }
    nested := false;
    var diffKeys := Changed(org.entries, upd.entries);
    var left := diffKeys;
    ghost var done: set<string> := {};
    DiffNone(org.entries, upd.entries, before);
    while left != {}
      invariant done == diffKeys - left && left <= diffKeys
      invariant nested == SomeNode(upd.entries, done)
      invariant out.entries == before + DiffSome(org.entries, upd.entries, done)
      decreases |left|
    {
      var k :| k in left;
      left := left - {k};
      DiffOneMore(org.entries, upd.entries, done, k, before);
      SomeNodeOneMore(upd.entries, done, k);
      done := done + {k};
      var value := upd.entries[k];
      if value.Node? {
        nested := true;
        var change := DiffDict(org.entries, upd.entries, k);
        out.entries := out.entries[k := change];
      } else if !value.Null? {
        out.entries := out.entries[k := value];
      }
    }
    assert done == diffKeys;
  }

  // ---------------------------------------------------------------- sending the change set only

  // A null value is left out of the change set, at this level or below a partial one.
  ghost predicate DropsNull(org: map<string, Tree>, upd: map<string, Tree>)
    decreases Node(upd)
  {
    exists k :: k in Changed(org, upd) &&
      (upd[k].Null? ||
       (&& Nested(Get(org, k, EMPTY), upd[k])
        && upd[k] < Node(upd) && DropsNull(Get(org, k, EMPTY).entries, upd[k].entries)))
  }

  // Merging key by key.
  lemma MergeEntry(a: map<string, Tree>, b: map<string, Tree>, k: string)
    ensures k in Merge(Node(a), Node(b)).entries <==> k in a || k in b
    ensures k in b ==> Merge(Node(a), Node(b)).entries[k] == MergeAt(a, b, k)
    ensures k in a && k !in b ==> Merge(Node(a), Node(b)).entries[k] == a[k]
  {
  }

  // What one key contributes: merging its change is merging its update, unless a null is dropped below.
  lemma {:induction false} SameContribution(org: map<string, Tree>, upd: map<string, Tree>, k: string)
    requires k in Changed(org, upd) && !upd[k].Null?
    ensures
      var drops := Nested(Get(org, k, EMPTY), upd[k]) && DropsNull(Get(org, k, EMPTY).entries, upd[k].entries);
      MergeAt(org, Diff(org, upd), k) == MergeAt(org, upd, k) <==> !drops
    decreases Node(upd), 0
  {
    assert upd[k] < Node(upd);
    if Nested(Get(org, k, EMPTY), upd[k]) {
      if k in org {
        DiffMerges(org[k].entries, upd[k].entries);
      } else {
        DiffMerges(map[], upd[k].entries);
        MergeIntoEmpty(Node(Diff(map[], upd[k].entries)));
        MergeIntoEmpty(upd[k]);
      }
    }
  }

  // Merging the change set onto the original gives what merging the whole update gives, exactly when no
  // null value is left out of the change set.
  lemma {:induction false} DiffMerges(org: map<string, Tree>, upd: map<string, Tree>)
    ensures Merge(Node(org), Node(Diff(org, upd))) == Merge(Node(org), Node(upd)) <==> !DropsNull(org, upd)
    decreases Node(upd), 1
  {
    var diff := Diff(org, upd);
    var left, right := Merge(Node(org), Node(diff)).entries, Merge(Node(org), Node(upd)).entries;
    forall k | k in upd && k !in Changed(org, upd) ensures k in left && left[k] == right[k] {
      MergeSelf(org[k]);
      MergeEntry(org, diff, k);
      MergeEntry(org, upd, k);
    }
    forall k | k in Changed(org, upd) && !upd[k].Null?
      ensures k in left && (left[k] == right[k] <==>
        !(Nested(Get(org, k, EMPTY), upd[k]) && DropsNull(Get(org, k, EMPTY).entries, upd[k].entries)))
    {
      SameContribution(org, upd, k);
      MergeEntry(org, diff, k);
      MergeEntry(org, upd, k);
    }
    if !DropsNull(org, upd) {
      forall k | k in Changed(org, upd) ensures !upd[k].Null? && k in left && left[k] == right[k] {
        assert upd[k] < Node(upd);
      }
      assert left == right;
    } else {
      var k :| k in Changed(org, upd) && (upd[k].Null? ||
        (&& Nested(Get(org, k, EMPTY), upd[k])
         && upd[k] < Node(upd) && DropsNull(Get(org, k, EMPTY).entries, upd[k].entries)));
      MergeEntry(org, diff, k);
      MergeEntry(org, upd, k);
      if upd[k].Null? {
        assert right[k] == Null;
        assert k !in diff;
      }
      assert left != right;
    }
  }

  // Setting a value to null is such an update: its change set is empty.
  lemma NullUpdateIsLost()
    ensures
      var org, upd := map["a" := Leaf("x")], map["a" := Null];
      && Diff(org, upd) == map[]
      && Merge(Node(org), Node(Diff(org, upd))) != Merge(Node(org), Node(upd))
  {
    var org, upd := map["a" := Leaf("x")], map["a" := Null];
    assert "a" in Changed(org, upd) && upd["a"].Null?;
    DiffMerges(org, upd);
  }

  // ---------------------------------------------------------------- trees without null

  predicate NullFree(t: Tree) {
    match t
    case Null => false
    case Leaf(_) => true
    case Node(entries) => forall k :: k in entries ==> NullFree(entries[k])
  }

  lemma {:induction false} NullFreeDropsNothing(org: map<string, Tree>, upd: map<string, Tree>)
    requires NullFree(Node(upd))
    ensures !DropsNull(org, upd)
    decreases Node(upd)
  {
    forall k | k in Changed(org, upd) && Nested(Get(org, k, EMPTY), upd[k])
      ensures !DropsNull(Get(org, k, EMPTY).entries, upd[k].entries)
    {
      assert upd[k] < Node(upd);
      assert NullFree(upd[k]);
      NullFreeDropsNothing(Get(org, k, EMPTY).entries, upd[k].entries);
    }
    assert forall k :: k in upd ==> NullFree(upd[k]);
  }

  // For trees without null the change set is enough, whatever the original and at any depth.
  lemma ChangeSetSuffices(org: map<string, Tree>, upd: map<string, Tree>)
    requires NullFree(Node(upd))
    ensures Merge(Node(org), Node(Diff(org, upd))) == Merge(Node(org), Node(upd))
  {
    NullFreeDropsNothing(org, upd);
    DiffMerges(org, upd);
  }
}
