/**
 Filtering and merging of docker arguments: a stream of tokens in which a switch is followed by its
 positional arguments, or carries its value after '='.
 */
module DockerArgs {
  import opened Sequences

  // ---------------------------------------------------------------- tokens

  predicate IsSwitch(token: string) { token != [] && token[0] == '-' }

  predicate HasValue(token: string) { '=' in token }

  function BeforeEq(s: string): string {
    if s == [] || s[0] == '=' then [] else [s[0]] + BeforeEq(s[1..])
  }

  function AfterEq(s: string): string {
    if s == [] then [] else if s[0] == '=' then s[1..] else AfterEq(s[1..])
  }

  function StripDashes(s: string): string {
    if s != [] && s[0] == '-' then StripDashes(s[1..]) else s
  }

  function Name(token: string): string { StripDashes(BeforeEq(token)) }

  // A token is dashes, a name, and perhaps '=' and a value.
  lemma {:induction false} EqParts(token: string)
    ensures '=' !in BeforeEq(token)
    ensures if HasValue(token) then token == BeforeEq(token) + "=" + AfterEq(token) else token == BeforeEq(token)
  {
    if token != [] && token[0] != '=' {
      EqParts(token[1..]);
      assert token == [token[0]] + token[1..];
    } else if token != [] {
      assert token == [] + "=" + token[1..];
    }
  }

  lemma {:induction false} DashParts(s: string) returns (dashes: string)
    ensures s == dashes + StripDashes(s) && forall c :: c in dashes ==> c == '-'
    ensures StripDashes(s) != [] ==> StripDashes(s)[0] != '-'
  {
    dashes := [];
    if s != [] && s[0] == '-' {
      var more := DashParts(s[1..]);
      dashes := [s[0]] + more;
      assert s == [s[0]] + s[1..];
    }
  }

  function Switches(args: seq<string>): (names: seq<string>)
    ensures forall n :: n in names <==> exists t :: t in args && IsSwitch(t) && Name(t) == n
  {
    if args == [] then []
    else
      assert args == [args[0]] + args[1..];
      (if IsSwitch(args[0]) then [Name(args[0])] else []) + Switches(args[1..])
  }

  method GetListOfSwitches(args: seq<string>) returns (names: seq<string>)
    ensures names == Switches(args)
  {
    names := [];
    var left := args;
    while left != []
      invariant names + Switches(left) == Switches(args)
      decreases |left|
    {
      Reassociate(names, if IsSwitch(left[0]) then [Name(left[0])] else [], Switches(left[1..]));
      assert names + [] == names;
      if IsSwitch(left[0]) {
        names := names + [Name(left[0])];
      }
      left := left[1..];
    }
  }

  // ---------------------------------------------------------------- filtering

  // No excluded switch can occur: its name behind a dash is nowhere in the joined arguments.
  predicate Shortcut(args: seq<string>, excluded: set<string>) {
    forall s :: s in excluded ==> !Contains(Join(args, ' '), "-" + s)
  }

  // Whether the scan keeps a token.
  predicate Keeps(token: string, excluded: set<string>, included: set<string>, taking: bool) {
    if IsSwitch(token) then
      && (included != {} || Name(token) !in excluded)
      && (included == {} || excluded != {} || Name(token) in included)
    else taking
  }

  // Whether positional tokens are kept after this one, when switches are excluded.
  predicate TakingAfter(token: string, names: set<string>, taking: bool) {
    if IsSwitch(token) then Name(token) !in names && !HasValue(token) else taking
  }

  // The scan of all tokens; `taking` says whether positional tokens are being kept.
  function Scan(args: seq<string>, excluded: set<string>, included: set<string>, taking: bool): seq<string> {
    if args == [] then []
    else
      var token := args[0];
      if IsSwitch(token) then
        if Keeps(token, excluded, included, taking) then
          [token] + Scan(args[1..], excluded, included, !HasValue(token))
        else Scan(args[1..], excluded, included, false)
      else if taking then [token] + Scan(args[1..], excluded, included, true)
      else Scan(args[1..], excluded, included, false)
  }

  function Filter(args: seq<string>, excluded: set<string>, included: set<string>): seq<string> {
    if included == {} && Shortcut(args, excluded) then args else Scan(args, excluded, included, included == {})
  }

  method FilterSwitches(args: seq<string>, excluded: set<string>, included: set<string>) returns (r: seq<string>)
    requires excluded == {} || included == {}
    ensures r == Filter(args, excluded, included)
  {
    if included == {} && Shortcut(args, excluded) {
      return args;
    }
    r := [];
    var taking := included == {};
    var left := args;
    while left != []
      invariant r + Scan(left, excluded, included, taking) == Scan(args, excluded, included, included == {})
      decreases |left|
    {
      var token := left[0];
      assert left == [token] + left[1..];
      left := left[1..];
      ghost var before := taking;
      var keep := taking;
      if IsSwitch(token) {
        taking := !HasValue(token);
        keep := true;
        if included == {} && Name(token) in excluded {
          taking, keep := false, false;
        } else if excluded == {} && included != {} && Name(token) !in included {
          taking, keep := false, false;
        }
      }
      ScanHead(token, left, excluded, included, before);
      Reassociate(r, if keep then [token] else [], Scan(left, excluded, included, taking));
      if keep {
        r := r + [token];
      } else {
        assert r + [] == r;
      }
    }
  }

  lemma ScanHead(token: string, rest: seq<string>, excluded: set<string>, included: set<string>, taking: bool)
    ensures
      var keep := Keeps(token, excluded, included, taking);
      var next := if IsSwitch(token) then keep && !HasValue(token) else taking;
      Scan([token] + rest, excluded, included, taking)
        == (if keep then [token] else []) + Scan(rest, excluded, included, next)
  {
    assert ([token] + rest)[1..] == rest;
    var next := if IsSwitch(token) then Keeps(token, excluded, included, taking) && !HasValue(token) else taking;
    assert [] + Scan(rest, excluded, included, next) == Scan(rest, excluded, included, next);
  }

  // ---------------------------------------------------------------- what filtering means

  // The switch a positional token belongs to: the last one before it.
  datatype Owner = Nobody | Switch(name: string, hasValue: bool)

  function OwnerAfter(token: string, owner: Owner): Owner {
    if IsSwitch(token) then Switch(Name(token), HasValue(token)) else owner
  }

  predicate IsOwned(owner: Owner, names: set<string>) { owner.Switch? && owner.name in names }

  // No positional token follows a switch that carries its value.
  predicate TidyFrom(args: seq<string>, owner: Owner) {
    args == [] ||
    ((IsSwitch(args[0]) || owner.Nobody? || !owner.hasValue) && TidyFrom(args[1..], OwnerAfter(args[0], owner)))
  }

  predicate Tidy(args: seq<string>) { TidyFrom(args, Nobody) }

  // For each token, whether its switch (the token itself, or its owner) is one of the names.
  function Mask(args: seq<string>, names: set<string>, owner: Owner): (m: seq<bool>)
    ensures |m| == |args|
  {
    if args == [] then []
    else
      var next := OwnerAfter(args[0], owner);
      [IsOwned(next, names)] + Mask(args[1..], names, next)
  }

  // The tokens whose flag is the given one, in order.
  function Pick(args: seq<string>, mask: seq<bool>, flag: bool): (r: seq<string>)
    requires |args| == |mask|
  {
    if args == [] then []
    else (if mask[0] == flag then [args[0]] else []) + Pick(args[1..], mask[1..], flag)
  }

  lemma {:induction false} PickSplits(args: seq<string>, mask: seq<bool>)
    requires |args| == |mask|
    ensures |Pick(args, mask, true)| + |Pick(args, mask, false)| == |args|
  {
    if args != [] {
      PickSplits(args[1..], mask[1..]);
    }
  }

  lemma MaskStep(args: seq<string>, names: set<string>, owner: Owner)
    requires args != []
    ensures Mask(args, names, owner)[0] == IsOwned(OwnerAfter(args[0], owner), names)
    ensures Mask(args, names, owner)[1..] == Mask(args[1..], names, OwnerAfter(args[0], owner))
  {
  }

  lemma {:induction false} ScanExcludes(args: seq<string>, names: set<string>, owner: Owner, taking: bool)
    requires TidyFrom(args, owner)
    requires owner.Nobody? || !owner.hasValue ==> taking == !IsOwned(owner, names)
    ensures Scan(args, names, {}, taking) == Pick(args, Mask(args, names, owner), false)
  {
    if args != [] {
      var next := OwnerAfter(args[0], owner);
      MaskStep(args, names, owner);
      ScanExcludes(args[1..], names, next, TakingAfter(args[0], names, taking));
    }
  }

  lemma {:induction false} ScanIncludes(args: seq<string>, names: set<string>, owner: Owner, taking: bool)
    requires names != {} && TidyFrom(args, owner)
    requires owner.Nobody? || !owner.hasValue ==> taking == IsOwned(owner, names)
    ensures Scan(args, {}, names, taking) == Pick(args, Mask(args, names, owner), true)
  {
    if args != [] {
      var next := OwnerAfter(args[0], owner);
      MaskStep(args, names, owner);
      ScanIncludes(args[1..], names, next,
        if IsSwitch(args[0]) then Name(args[0]) in names && !HasValue(args[0]) else taking);
    }
  }

  // ---------------------------------------------------------------- the shortcut

  lemma {:induction false} ContainsInside(pre: string, part: string, post: string)
    ensures Contains(pre + part + post, part)
  {
    var text := pre + part + post;
    if pre == [] {
      assert text == part + post;
    } else {
      ContainsInside(pre[1..], part, post);
      assert text[1..] == pre[1..] + part + post;
    }
  }

  lemma {:induction false} BeforeEqIsPrefix(token: string)
    ensures BeforeEq(token) <= token
  {
    if token != [] && token[0] != '=' {
      BeforeEqIsPrefix(token[1..]);
    }
  }

  lemma {:induction false} DashesFirst(s: string) returns (pre: string)
    requires s != [] && s[0] == '-'
    ensures s == pre + "-" + StripDashes(s)
  {
    if |s| > 1 && s[1] == '-' {
      pre := DashesFirst(s[1..]);
      assert s == [s[0]] + s[1..];
      pre := [s[0]] + pre;
    } else {
      assert StripDashes(s) == s[1..];
      pre := [];
    }
  }

  lemma NameInToken(token: string) returns (pre: string, post: string)
    requires IsSwitch(token)
    ensures token == pre + ("-" + Name(token)) + post
  {
    BeforeEqIsPrefix(token);
    var head := BeforeEq(token);
    pre := DashesFirst(head);
    post := token[|head|..];
    assert token == head + post;
    assert head == pre + ("-" + Name(token));
  }

  lemma {:induction false} TokenInJoined(args: seq<string>, token: string) returns (pre: string, post: string)
    requires token in args
    ensures Join(args, ' ') == pre + token + post
  {
    if args[0] == token {
      pre, post := [], Join(args, ' ')[|token|..];
    } else {
      pre, post := TokenInJoined(args[1..], token);
      pre := args[0] + " " + pre;
    }
  }

  // The shortcut is sound: when it is taken no excluded switch is present.
  lemma ShortcutIsSound(args: seq<string>, excluded: set<string>)
    requires Shortcut(args, excluded)
    ensures forall t :: t in args && IsSwitch(t) ==> Name(t) !in excluded
  {
    forall t | t in args && IsSwitch(t) ensures Name(t) !in excluded {
      var pre, post := TokenInJoined(args, t);
      var pre', post' := NameInToken(t);
      ContainsInside(pre + pre', "-" + Name(t), post' + post);
      assert Join(args, ' ') == (pre + pre') + ("-" + Name(t)) + (post' + post);
    }
  }

  predicate NoneNamed(args: seq<string>, names: set<string>) {
    forall t :: t in args && IsSwitch(t) ==> Name(t) !in names
  }

  // A scan without anything to drop keeps the whole list exactly when the list is tidy.
  lemma {:induction false} ScanOfOthers(args: seq<string>, names: set<string>, owner: Owner)
    requires NoneNamed(args, names)
    ensures
      var taking := owner.Nobody? || !owner.hasValue;
      |Scan(args, names, {}, taking)| <= |args| && (Scan(args, names, {}, taking) == args <==> TidyFrom(args, owner))
  {
    if args != [] {
      assert args[0] in args && forall t :: t in args[1..] ==> t in args;
      assert args == [args[0]] + args[1..];
      ScanOfOthers(args[1..], names, OwnerAfter(args[0], owner));
    }
  }

  // Where the shortcut is taken it agrees with the full scan exactly on tidy lists.
  lemma ShortcutAgreesWhenTidy(args: seq<string>, excluded: set<string>)
    requires Shortcut(args, excluded)
    ensures Filter(args, excluded, {}) == Scan(args, excluded, {}, true) <==> Tidy(args)
  {
    ShortcutIsSound(args, excluded);
    ScanOfOthers(args, excluded, Nobody);
  }

  // ---------------------------------------------------------------- exclusion and inclusion

  lemma ExcludeMeaning(args: seq<string>, names: set<string>)
    requires Tidy(args)
    ensures Filter(args, names, {}) == Pick(args, Mask(args, names, Nobody), false)
  {
    ScanExcludes(args, names, Nobody, true);
    if Shortcut(args, names) {
      ShortcutAgreesWhenTidy(args, names);
    }
  }

  lemma {:induction false} ScanCounts(args: seq<string>, names: set<string>, owner: Owner)
    requires names != {}
    ensures
      var flows := owner.Nobody? || !owner.hasValue;
      var kept := Scan(args, names, {}, flows && !IsOwned(owner, names));
      var taken := Scan(args, {}, names, flows && IsOwned(owner, names));
      |kept| + |taken| <= |args| && (|kept| + |taken| == |args| <==> TidyFrom(args, owner))
  {
    if args != [] {
      ScanCounts(args[1..], names, OwnerAfter(args[0], owner));
    }
  }

  lemma {:induction false} IncludeOfOthers(args: seq<string>, names: set<string>)
    requires names != {} && NoneNamed(args, names)
    ensures Scan(args, {}, names, false) == []
  {
    if args != [] {
      assert args[0] in args && forall t :: t in args[1..] ==> t in args;
      IncludeOfOthers(args[1..], names);
    }
  }

  ghost predicate Complementary(args: seq<string>, kept: seq<string>, taken: seq<string>) {
    exists mask :: |mask| == |args| && kept == Pick(args, mask, false) && taken == Pick(args, mask, true)
  }

  lemma {:induction false} PickAll(args: seq<string>)
    ensures
      var none := seq(|args|, _ => false);
      Pick(args, none, false) == args && Pick(args, none, true) == []
  {
    if args != [] {
      PickAll(args[1..]);
      assert seq(|args|, _ => false)[1..] == seq(|args[1..]|, _ => false);
      assert [args[0]] + args[1..] == args;
    }
  }

  // Excluding and including the same switches split a list into complementary subsequences, exactly when
  // the list is tidy or the shortcut is taken. A token before the first switch counts as not included.
  lemma FilterSplitsExactlyWhenTidy(args: seq<string>, names: set<string>)
    requires names != {}
    ensures Complementary(args, Filter(args, names, {}), Filter(args, {}, names))
      <==> Tidy(args) || Shortcut(args, names)
  {
    var kept, taken := Filter(args, names, {}), Filter(args, {}, names);
    if Shortcut(args, names) {
      ShortcutIsSound(args, names);
      IncludeOfOthers(args, names);
      PickAll(args);
      assert |seq(|args|, _ => false)| == |args|;
    } else {
      ScanCounts(args, names, Nobody);
      if Tidy(args) {
        ScanExcludes(args, names, Nobody, true);
        ScanIncludes(args, names, Nobody, false);
      }
      forall mask | |mask| == |args| && kept == Pick(args, mask, false) && taken == Pick(args, mask, true)
        ensures Tidy(args)
      {
        PickSplits(args, mask);
      }
    }
  }

  // With no names at all both filters return the list unchanged.
  lemma EmptyFilters(args: seq<string>)
    ensures Filter(args, {}, {}) == args
  {
  }

  lemma {:induction false} IncludingScanKeepsNamed(args: seq<string>, names: set<string>, taking: bool)
    requires names != {}
    ensures forall n :: n in Switches(Scan(args, {}, names, taking)) ==> n in names
  {
    if args != [] {
      var token := args[0];
      var keep := Keeps(token, {}, names, taking);
      var next := if IsSwitch(token) then keep && !HasValue(token) else taking;
      var rest := Scan(args[1..], {}, names, next);
      IncludingScanKeepsNamed(args[1..], names, next);
      assert ([token] + rest)[1..] == rest;
    }
  }

  // Including keeps none but the named switches, except that with no names at all it keeps every switch.
  lemma IncludeKeepsOnlyNamedExactlyWhen(args: seq<string>, names: set<string>)
    ensures (forall n :: n in Switches(Filter(args, {}, names)) ==> n in names)
      <==> names != {} || Switches(args) == []
  {
    if names != {} {
      IncludingScanKeepsNamed(args, names, false);
    } else {
      EmptyFilters(args);
      assert Switches(args) != [] ==> Switches(args)[0] in Switches(args);
    }
  }

  lemma {:induction false} ScanDropsNamed(args: seq<string>, names: set<string>, taking: bool)
    ensures NoneNamed(Scan(args, names, {}, taking), names)
  {
    if args != [] {
      var rest := Scan(args[1..], names, {}, TakingAfter(args[0], names, taking));
      ScanDropsNamed(args[1..], names, TakingAfter(args[0], names, taking));
      assert Scan(args, names, {}, taking) == rest || Scan(args, names, {}, taking) == [args[0]] + rest;
    }
  }

  // An excluded switch never survives, whatever the list.
  lemma ExcludedNeverSurvive(args: seq<string>, names: set<string>)
    ensures NoneNamed(Filter(args, names, {}), names)
  {
    if Shortcut(args, names) {
      ShortcutIsSound(args, names);
    } else {
      ScanDropsNamed(args, names, true);
    }
  }

  lemma {:induction false} ScanIsTidy(args: seq<string>, names: set<string>, owner: Owner, taking: bool)
    requires taking ==> owner.Nobody? || !owner.hasValue
    ensures TidyFrom(Scan(args, names, {}, taking), owner)
  {
    if args != [] {
      var token := args[0];
      if IsSwitch(token) {
        if Name(token) in names {
          ScanIsTidy(args[1..], names, owner, false);
        } else {
          var rest := Scan(args[1..], names, {}, !HasValue(token));
          ScanIsTidy(args[1..], names, OwnerAfter(token, owner), !HasValue(token));
          assert ([token] + rest)[1..] == rest;
        }
      } else {
        ScanIsTidy(args[1..], names, owner, taking);
        var rest := Scan(args[1..], names, {}, taking);
        assert ([token] + rest)[1..] == rest;
      }
    }
  }

  // Exclusion is idempotent, on every list.
  lemma ExclusionIsIdempotent(args: seq<string>, names: set<string>)
    ensures Filter(Filter(args, names, {}), names, {}) == Filter(args, names, {})
  {
    var once := Filter(args, names, {});
    if !Shortcut(args, names) {
      ExcludedNeverSurvive(args, names);
      ScanIsTidy(args, names, Nobody, true);
      ScanOfOthers(once, names, Nobody);
    }
  }

  // ---------------------------------------------------------------- the entrypoint exemption

  const ENTRYPOINT: string := "entrypoint"

  predicate IsEntrypoint(token: string) { IsSwitch(token) && Name(token) == ENTRYPOINT }

  // The value the first token passes to the switch, if it is that switch.
  function FirstValue(args: seq<string>, switch: string): seq<string>
    requires args != []
  {
    if !IsSwitch(args[0]) || Name(args[0]) != switch then []
    else if HasValue(args[0]) then [AfterEq(args[0])]
    else if |args| > 1 then [args[1]]
    else []
  }

  // The values passed to a switch.
  function SwitchValues(args: seq<string>, switch: string): seq<string> {
    if args == [] then [] else FirstValue(args, switch) + SwitchValues(args[1..], switch)
  }

  method CollectSwitchValues(args: seq<string>, switch: string) returns (values: seq<string>)
    ensures values == SwitchValues(args, switch)
  {
    values := [];
    var left := args;
    while left != []
      invariant values + SwitchValues(left, switch) == SwitchValues(args, switch)
      decreases |left|
    {
      assert values + [] == values;
      Reassociate(values, FirstValue(left, switch), SwitchValues(left[1..], switch));
      var token := left[0];
      if IsSwitch(token) && Name(token) == switch {
        if HasValue(token) {
          values := values + [AfterEq(token)];
        } else if |left| > 1 {
          values := values + [left[1]];
        }
      }
      left := left[1..];
    }
  }

  // The token at k is the switch, and v is its value: after '=', or the next token.
  predicate ValueAt(args: seq<string>, k: nat, switch: string, v: string)
    requires k < |args|
  {
    && IsSwitch(args[k]) && Name(args[k]) == switch
    && if '=' in args[k] then v == AfterEq(args[k]) else k + 1 < |args| && v == args[k + 1]
  }

  lemma {:induction false} SwitchValuesMeaning(args: seq<string>, switch: string, v: string)
    ensures v in SwitchValues(args, switch) <==> exists k :: 0 <= k < |args| && ValueAt(args, k, switch, v)
  {
    if args != [] {
      var first, rest := FirstValue(args, switch), SwitchValues(args[1..], switch);
      SwitchValuesMeaning(args[1..], switch, v);
      assert v in first + rest <==> v in first || v in rest;
      assert v in first <==> ValueAt(args, 0, switch, v);
      forall k | 1 <= k < |args| ensures ValueAt(args, k, switch, v) <==> ValueAt(args[1..], k - 1, switch, v) {
      }
      if v in rest {
        var k :| 0 <= k < |args[1..]| && ValueAt(args[1..], k, switch, v);
        assert ValueAt(args, k + 1, switch, v);
      }
    }
  }

  predicate AllEmpty(values: seq<string>) { forall v :: v in values ==> v == "" }

  // What follows an entrypoint switch that does not override the agent's command.
  predicate EmptyAt(args: seq<string>)
    requires args != []
  {
    IsEntrypoint(args[0]) ==>
      if HasValue(args[0]) then AfterEq(args[0]) == "" else |args| == 1 || args[1] == ""
  }

  predicate OnlyEmptyEntrypoints(args: seq<string>) {
    args == [] || (EmptyAt(args) && OnlyEmptyEntrypoints(args[1..]))
  }

  lemma {:induction false} EmptyValuesMeaning(args: seq<string>)
    ensures AllEmpty(SwitchValues(args, ENTRYPOINT)) <==> OnlyEmptyEntrypoints(args)
  {
    if args != [] {
      EmptyValuesMeaning(args[1..]);
      var first, rest := FirstValue(args, ENTRYPOINT), SwitchValues(args[1..], ENTRYPOINT);
      assert forall v :: v in first + rest <==> v in first || v in rest;
      if first != [] {
        assert first == [first[0]] && first[0] in first;
        assert AllEmpty(first) <==> first[0] == "";
      }
    }
  }

  // ---------------------------------------------------------------- stray empty tokens

  predicate BareEntrypoint(token: string) { IsEntrypoint(token) && !HasValue(token) }

  function DropFrom(prev: string, args: seq<string>): seq<string>
    decreases |args|
  {
    if args == [] then []
    else (if args[0] != "" || BareEntrypoint(prev) then [args[0]] else []) + DropFrom(args[0], args[1..])
  }

  function DropStray(args: seq<string>): seq<string> { DropFrom("", args) }

  method DropStrayEmptyTokens(args: seq<string>) returns (r: seq<string>)
    ensures r == DropStray(args)
  {
    r := [];
    var prev := "";
    var left := args;
    while left != []
      invariant r + DropFrom(prev, left) == DropStray(args)
      decreases |left|
    {
      var token := left[0];
      left := left[1..];
      Reassociate(r, if token != "" || BareEntrypoint(prev) then [token] else [], DropFrom(token, left));
      assert r + [] == r;
      if token != "" {
        r := r + [token];
      } else if BareEntrypoint(prev) {
        r := r + [token];
      }
      prev := token;
    }
  }

  function NonEmpty(args: seq<string>): seq<string> {
    if args == [] then [] else (if args[0] != "" then [args[0]] else []) + NonEmpty(args[1..])
  }

  lemma {:induction false} DropKeepsNonEmpty(prev: string, args: seq<string>)
    ensures NonEmpty(DropFrom(prev, args)) == NonEmpty(args)
    ensures forall t :: t in DropFrom(prev, args) && t != "" <==> t in args && t != ""
    decreases |args|
  {
    if args != [] {
      DropKeepsNonEmpty(args[0], args[1..]);
      var rest := DropFrom(args[0], args[1..]);
      assert args == [args[0]] + args[1..];
      if args[0] != "" || BareEntrypoint(prev) {
        assert ([args[0]] + rest)[1..] == rest;
      } else {
        assert [] + rest == rest;
      }
    }
  }

  lemma {:induction false} DropKeepsEntrypoints(prev: string, args: seq<string>)
    requires OnlyEmptyEntrypoints(args)
    ensures OnlyEmptyEntrypoints(DropFrom(prev, args))
    decreases |args|
  {
    if args != [] {
      var rest := DropFrom(args[0], args[1..]);
      DropKeepsEntrypoints(args[0], args[1..]);
      if args[0] != "" || BareEntrypoint(prev) {
        assert ([args[0]] + rest)[1..] == rest;
        assert EmptyAt([args[0]] + rest);
      } else {
        assert [] + rest == rest;
      }
    }
  }

  lemma {:induction false} ScanKeepsEntrypoints(args: seq<string>, names: set<string>, taking: bool)
    requires OnlyEmptyEntrypoints(args)
    ensures OnlyEmptyEntrypoints(Scan(args, names, {}, taking))
  {
    if args != [] {
      var token := args[0];
      if IsSwitch(token) && Name(token) !in names {
        var rest := Scan(args[1..], names, {}, !HasValue(token));
        ScanKeepsEntrypoints(args[1..], names, !HasValue(token));
        assert ([token] + rest)[1..] == rest;
        assert EmptyAt([token] + rest);
      } else if IsSwitch(token) {
        ScanKeepsEntrypoints(args[1..], names, false);
      } else {
        var rest := Scan(args[1..], names, {}, taking);
        ScanKeepsEntrypoints(args[1..], names, taking);
        assert ([token] + rest)[1..] == rest;
      }
    }
  }

  // ---------------------------------------------------------------- the merge

  datatype Config = Config(forbidden: set<string>, protected: set<string>, extraFirst: bool)

  function SwitchSet(args: seq<string>): set<string> { set n | n in Switches(args) }

  // An entrypoint whose every value is empty only clears the image's own entrypoint.
  predicate Harmless(args: seq<string>, switch: string) {
    switch == ENTRYPOINT && SwitchValues(args, switch) != [] && AllEmpty(SwitchValues(args, switch))
  }

  // The forbidden switches of one list that are not harmless.
  function Offending(args: seq<string>, forbidden: set<string>): set<string> {
    set n | n in SwitchSet(args) * forbidden && !Harmless(args, n)
  }

  function Stripped(cfg: Config, task: seq<string>, extra: seq<string>): set<string> {
    Offending(task, cfg.forbidden) + Offending(extra, cfg.forbidden)
  }

  datatype Merged = Merged(command: seq<string>, stripped: set<string>)

  // The arguments of the preferred source and what remains of the other one.
  function Preferred(cfg: Config, task: seq<string>, extra: seq<string>): seq<string> {
    Filter(if cfg.extraFirst then extra else task, Stripped(cfg, task, extra), {})
  }

  function Remaining(cfg: Config, task: seq<string>, extra: seq<string>): seq<string> {
    Filter(Filter(if cfg.extraFirst then task else extra, Stripped(cfg, task, extra), {}),
           SwitchSet(Preferred(cfg, task, extra)) * cfg.protected, {})
  }

  function Merge(cfg: Config, task: seq<string>, extra: seq<string>): seq<string> {
    DropStray(Preferred(cfg, task, extra)) + DropStray(Remaining(cfg, task, extra))
  }

  // The source gives the switch.
  predicate Gives(args: seq<string>, name: string) { exists t :: t in args && IsSwitch(t) && Name(t) == name }

  // The source gives an entrypoint, with values that are all empty.
  predicate ClearsEntrypoint(args: seq<string>, name: string) {
    && name == "entrypoint" && SwitchValues(args, name) != []
    && forall v :: v in SwitchValues(args, name) ==> v == ""
  }

  // A switch that must go: it is forbidden, and a source gives it other than to clear the entrypoint.
  predicate MustGo(cfg: Config, task: seq<string>, extra: seq<string>, name: string) {
    && name in cfg.forbidden
    && ((Gives(task, name) && !ClearsEntrypoint(task, name)) || (Gives(extra, name) && !ClearsEntrypoint(extra, name)))
  }

  // Exactly these are stripped.
  lemma StrippedExactly(cfg: Config, task: seq<string>, extra: seq<string>, name: string)
    ensures name in Stripped(cfg, task, extra) <==> MustGo(cfg, task, extra, name)
  {
    assert name in Switches(task) <==> Gives(task, name);
    assert name in Switches(extra) <==> Gives(extra, name);
  }

  method FindOffending(args: seq<string>, forbidden: set<string>) returns (present: set<string>)
    ensures present == Offending(args, forbidden)
  {
    present := {};
    var names := GetListOfSwitches(args);
    var switches := (set n | n in names) * forbidden;
    var left := switches;
    while left != {}
      invariant left <= switches
      invariant forall n :: n in present <==> n in switches && n !in left && !Harmless(args, n)
      decreases |left|
    {
      var switch :| switch in left;
      left := left - {switch};
      if switch == ENTRYPOINT {
        var values := CollectSwitchValues(args, switch);
        if values != [] && AllEmpty(values) {
          continue;
        }
      }
      present := present + {switch};
    }
  }

  method MergeDockerArgs(cfg: Config, task: seq<string>, extra: seq<string>) returns (r: Merged)
    ensures r == Merged(Merge(cfg, task, extra), Stripped(cfg, task, extra))
    ensures forall n :: n in r.stripped <==> MustGo(cfg, task, extra, n)
  {
    var present := FindOffending(task, cfg.forbidden);
    var more := FindOffending(extra, cfg.forbidden);
    present := present + more;
    var taskArgs, extraArgs := task, extra;
    if present != {} {
      taskArgs := FilterSwitches(taskArgs, present, {});
      extraArgs := FilterSwitches(extraArgs, present, {});
    } else {
      EmptyFilters(task);
      EmptyFilters(extra);
    }
    var first, second := taskArgs, extraArgs;
    if cfg.extraFirst {
      first, second := extraArgs, taskArgs;
    }
    var names := GetListOfSwitches(first);
    var base := DropStrayEmptyTokens(first);
    var others := FilterSwitches(second, (set n | n in names) * cfg.protected, {});
    others := DropStrayEmptyTokens(others);
    r := Merged(base + others, present);
    forall n ensures n in r.stripped <==> MustGo(cfg, task, extra, n) {
      StrippedExactly(cfg, task, extra, n);
    }
  }

  // A protected switch given by the preferred source is taken from that source only.
  lemma ProtectedFromOneSource(cfg: Config, task: seq<string>, extra: seq<string>, p: string)
    requires p in cfg.protected && p in SwitchSet(Preferred(cfg, task, extra))
    ensures forall t :: t in DropStray(Remaining(cfg, task, extra)) && IsSwitch(t) ==> Name(t) != p
  {
    var names := SwitchSet(Preferred(cfg, task, extra)) * cfg.protected;
    var second := Filter(if cfg.extraFirst then task else extra, Stripped(cfg, task, extra), {});
    ExcludedNeverSurvive(second, names);
    DropKeepsNonEmpty("", Remaining(cfg, task, extra));
  }

  lemma FilterIsSubset(args: seq<string>, names: set<string>)
    ensures forall t :: t in Filter(args, names, {}) ==> t in args
  {
    ScanIsSubset(args, names, true);
  }

  lemma {:induction false} ScanIsSubset(args: seq<string>, names: set<string>, taking: bool)
    ensures forall t :: t in Scan(args, names, {}, taking) ==> t in args
  {
    if args != [] {
      assert args == [args[0]] + args[1..];
      ScanIsSubset(args[1..], names, TakingAfter(args[0], names, taking));
    }
  }

  // A forbidden switch is left in the result only if it is an entrypoint whose every value, in each
  // source that gives it, is empty.
  lemma ForbiddenOnlyHarmless(cfg: Config, task: seq<string>, extra: seq<string>, t: string)
    requires t in Merge(cfg, task, extra) && IsSwitch(t) && Name(t) in cfg.forbidden
    ensures IsEntrypoint(t)
    ensures forall args :: args in [task, extra] && ENTRYPOINT in SwitchSet(args) ==>
      SwitchValues(args, ENTRYPOINT) != [] && AllEmpty(SwitchValues(args, ENTRYPOINT))
  {
    MergedSwitchIsFromSource(cfg, task, extra, t);
    var stripped := Stripped(cfg, task, extra);
    assert t in Filter(task, stripped, {}) || t in Filter(extra, stripped, {});
    ExcludedNeverSurvive(task, stripped);
    ExcludedNeverSurvive(extra, stripped);
    FilterIsSubset(task, stripped);
    FilterIsSubset(extra, stripped);
    assert Name(t) in Switches(task) || Name(t) in Switches(extra);
  }

  // What is in the merged command comes from one of the stripped sources.
  lemma MergedSwitchIsFromSource(cfg: Config, task: seq<string>, extra: seq<string>, t: string)
    requires t in Merge(cfg, task, extra) && t != ""
    ensures
      t in Filter(task, Stripped(cfg, task, extra), {}) || t in Filter(extra, Stripped(cfg, task, extra), {})
  {
    var second := if cfg.extraFirst then task else extra;
    DropKeepsNonEmpty("", Preferred(cfg, task, extra));
    DropKeepsNonEmpty("", Remaining(cfg, task, extra));
    FilterIsSubset(Filter(second, Stripped(cfg, task, extra), {}),
                   SwitchSet(Preferred(cfg, task, extra)) * cfg.protected);
  }

  lemma FilterKeepsEntrypoints(args: seq<string>, names: set<string>)
    requires OnlyEmptyEntrypoints(args)
    ensures OnlyEmptyEntrypoints(Filter(args, names, {}))
  {
    ScanKeepsEntrypoints(args, names, true);
  }

  lemma {:induction false} NoEntrypoints(args: seq<string>)
    requires NoneNamed(args, {ENTRYPOINT})
    ensures OnlyEmptyEntrypoints(args)
  {
    if args != [] {
      assert args[0] in args && forall t :: t in args[1..] ==> t in args;
      NoEntrypoints(args[1..]);
    }
  }

  // After the forbidden switches are stripped, every entrypoint left in a source is an empty one.
  lemma SourceEntrypointsEmpty(args: seq<string>, cfg: Config, task: seq<string>, extra: seq<string>)
    requires ENTRYPOINT in cfg.forbidden && args in [task, extra]
    ensures OnlyEmptyEntrypoints(Filter(args, Stripped(cfg, task, extra), {}))
  {
    var stripped := Stripped(cfg, task, extra);
    if ENTRYPOINT in stripped {
      ExcludedNeverSurvive(args, stripped);
      NoEntrypoints(Filter(args, stripped, {}));
    } else {
      if ENTRYPOINT !in SwitchSet(args) {
        assert forall t :: t in args && IsSwitch(t) ==> Name(t) in Switches(args);
        NoEntrypoints(args);
      } else {
        EmptyValuesMeaning(args);
      }
      FilterKeepsEntrypoints(args, stripped);
    }
  }

  predicate EndsBare(args: seq<string>) { args != [] && BareEntrypoint(args[|args| - 1]) }

  lemma {:induction false} EntrypointsConcat(a: seq<string>, b: seq<string>)
    requires OnlyEmptyEntrypoints(a) && OnlyEmptyEntrypoints(b)
    ensures OnlyEmptyEntrypoints(a + b) <==> !EndsBare(a) || b == [] || b[0] == ""
  {
    if a == [] {
      assert a + b == b;
    } else {
      assert (a + b)[1..] == a[1..] + b;
      EntrypointsConcat(a[1..], b);
      if |a| > 1 {
        assert EndsBare(a[1..]) == EndsBare(a);
        assert (a + b)[1] == a[1];
      } else {
        assert a[1..] == [];
      }
    }
  }

  lemma EndsBareCons(token: string, rest: seq<string>)
    ensures EndsBare([token] + rest) <==> if rest == [] then BareEntrypoint(token) else EndsBare(rest)
  {
    assert rest != [] ==> ([token] + rest)[|rest|] == rest[|rest| - 1];
  }

  lemma {:induction false} ScanEndsBare(args: seq<string>, names: set<string>, taking: bool)
    requires OnlyEmptyEntrypoints(args) && ENTRYPOINT !in names
    ensures EndsBare(Scan(args, names, {}, taking)) <==> EndsBare(args)
  {
    if args != [] {
      var token, tail := args[0], args[1..];
      var next := TakingAfter(token, names, taking);
      var rest := Scan(tail, names, {}, next);
      ScanEndsBare(tail, names, next);
      assert args == [token] + tail;
      EndsBareCons(token, tail);
      EndsBareCons(token, rest);
      ScanHead(token, tail, names, {}, taking);
      if BareEntrypoint(token) {
        // its value, if it has one, is kept with it
        assert tail != [] ==> rest[0] == "";
      }
    }
  }

  lemma {:induction false} DropEndsBare(prev: string, args: seq<string>)
    requires OnlyEmptyEntrypoints(args)
    ensures EndsBare(DropFrom(prev, args)) <==> EndsBare(args)
    decreases |args|
  {
    if args != [] {
      var token, tail := args[0], args[1..];
      var rest := DropFrom(token, tail);
      DropEndsBare(token, tail);
      assert args == [token] + tail;
      EndsBareCons(token, tail);
      EndsBareCons(token, rest);
      assert [] + rest == rest;
      if BareEntrypoint(token) {
        assert tail != [] ==> rest[0] == "";
      }
    }
  }

  lemma NotNamedNotBare(args: seq<string>)
    requires NoneNamed(args, {ENTRYPOINT})
    ensures !EndsBare(args)
  {
    if args != [] {
      assert args[|args| - 1] in args;
    }
  }

  // Whether the preferred part ends in an entrypoint switch without any value, told from the inputs.
  lemma PreferredEndsBare(cfg: Config, task: seq<string>, extra: seq<string>)
    requires ENTRYPOINT in cfg.forbidden
    ensures EndsBare(DropStray(Preferred(cfg, task, extra))) <==>
      EndsBare(if cfg.extraFirst then extra else task) && ENTRYPOINT !in Stripped(cfg, task, extra)
  {
    var first := if cfg.extraFirst then extra else task;
    var stripped := Stripped(cfg, task, extra);
    SourceEntrypointsEmpty(first, cfg, task, extra);
    DropEndsBare("", Preferred(cfg, task, extra));
    if ENTRYPOINT in stripped {
      ExcludedNeverSurvive(first, stripped);
      NotNamedNotBare(Preferred(cfg, task, extra));
    } else {
      if ENTRYPOINT in SwitchSet(first) {
        EmptyValuesMeaning(first);
      } else {
        assert forall t :: t in first && IsSwitch(t) ==> Name(t) in Switches(first);
        NoEntrypoints(first);
      }
      ScanEndsBare(first, stripped, true);
    }
  }

  lemma {:induction false} DropStartsNonEmpty(args: seq<string>)
    ensures DropStray(args) != [] ==> DropStray(args)[0] != ""
  {
    if args != [] && args[0] == "" {
      assert !BareEntrypoint("");
      assert DropStray(args) == [] + DropFrom("", args[1..]);
      DropStartsNonEmpty(args[1..]);
    }
  }

  // With the entrypoint forbidden, every value the merged command passes to an entrypoint switch is empty,
  // unless the preferred source ends in an entrypoint switch without any value that is not stripped (an
  // earlier one has an empty value): then the first token of the other part becomes its value.
  lemma MergedEntrypointValues(cfg: Config, task: seq<string>, extra: seq<string>)
    requires ENTRYPOINT in cfg.forbidden
    ensures
      AllEmpty(SwitchValues(Merge(cfg, task, extra), ENTRYPOINT)) <==>
        || !EndsBare(if cfg.extraFirst then extra else task)
        || ENTRYPOINT in Stripped(cfg, task, extra)
        || DropStray(Remaining(cfg, task, extra)) == []
  {
    var first, second := if cfg.extraFirst then extra else task, if cfg.extraFirst then task else extra;
    SourceEntrypointsEmpty(first, cfg, task, extra);
    SourceEntrypointsEmpty(second, cfg, task, extra);
    FilterKeepsEntrypoints(Filter(second, Stripped(cfg, task, extra), {}),
                           SwitchSet(Preferred(cfg, task, extra)) * cfg.protected);
    DropKeepsEntrypoints("", Preferred(cfg, task, extra));
    DropKeepsEntrypoints("", Remaining(cfg, task, extra));
    DropStartsNonEmpty(Remaining(cfg, task, extra));
    EntrypointsConcat(DropStray(Preferred(cfg, task, extra)), DropStray(Remaining(cfg, task, extra)));
    EmptyValuesMeaning(Merge(cfg, task, extra));
    PreferredEndsBare(cfg, task, extra);
  }

  lemma {:induction false} NameSplits(s: string, t: string)
    requires '=' !in s
    ensures BeforeEq(s) == s && BeforeEq(s + "=" + t) == s && AfterEq(s + "=" + t) == t
  {
    if s != [] {
      NameSplits(s[1..], t);
      assert (s + "=" + t)[1..] == s[1..] + "=" + t;
    }
  }

  lemma EntrypointTokens(empty: string, bare: string)
    requires empty == "--" + ENTRYPOINT + "=" && bare == "--" + ENTRYPOINT
    ensures IsEntrypoint(empty) && HasValue(empty) && AfterEq(empty) == ""
    ensures IsEntrypoint(bare) && !HasValue(bare)
  {
    NameSplits(bare, []);
    assert bare + "=" + [] == empty;
    assert StripDashes(ENTRYPOINT) == ENTRYPOINT;
    assert bare[1..] == "-" + ENTRYPOINT && bare[1..][1..] == ENTRYPOINT;
    assert StripDashes(bare[1..]) == StripDashes(ENTRYPOINT);
    assert empty[|bare|] == '=';
  }

  // It happens: a trailing bare entrypoint after an empty one makes the next source's first token its value.
  lemma DanglingEntrypointTakesNextToken(cfg: Config, empty: string, bare: string)
    requires cfg == Config({ENTRYPOINT}, {}, false)
    requires empty == "--" + ENTRYPOINT + "=" && bare == "--" + ENTRYPOINT
    ensures Stripped(cfg, [empty, bare], ["image"]) == {}
    ensures !AllEmpty(SwitchValues(Merge(cfg, [empty, bare], ["image"]), ENTRYPOINT))
  {
    var task, extra := [empty, bare], ["image"];
    EntrypointTokens(empty, bare);
    TwoEntrypoints(empty, bare);
    assert extra[1..] == [] && Switches(extra) == [];
    assert Stripped(cfg, task, extra) == {};
    EmptyFilters(task);
    EmptyFilters(extra);
    assert Remaining(cfg, task, extra) == extra;
    MergedEntrypointValues(cfg, task, extra);
  }

  lemma TwoEntrypoints(empty: string, bare: string)
    requires IsEntrypoint(empty) && HasValue(empty) && AfterEq(empty) == ""
    requires IsEntrypoint(bare) && !HasValue(bare)
    ensures SwitchValues([empty, bare], ENTRYPOINT) == [""] && EndsBare([empty, bare])
  {
    assert [empty, bare][1..] == [bare] && [bare][1..] == [];
    assert SwitchValues([bare], ENTRYPOINT) == [];
  }

  // ---------------------------------------------------------------- what the merge keeps

  lemma {:induction false} ScanTwice(args: seq<string>, a: set<string>, b: set<string>, one: bool, two: bool)
    ensures Scan(Scan(args, a, {}, one), b, {}, two) == Scan(args, a + b, {}, one && two)
  {
    if args != [] {
      var token := args[0];
      if IsSwitch(token) {
        if Name(token) in a {
          ScanTwice(args[1..], a, b, false, two);
        } else {
          ScanTwice(args[1..], a, b, !HasValue(token), Name(token) !in b && !HasValue(token));
        }
      } else {
        ScanTwice(args[1..], a, b, one, two);
      }
      var rest := Scan(args[1..], a, {}, TakingAfter(token, a, one));
      assert ([token] + rest)[1..] == rest;
    }
  }

  lemma TidyFilterIsScan(args: seq<string>, names: set<string>)
    requires Tidy(args)
    ensures Filter(args, names, {}) == Scan(args, names, {}, true) && Tidy(Filter(args, names, {}))
  {
    if Shortcut(args, names) {
      ShortcutAgreesWhenTidy(args, names);
    }
    ScanIsTidy(args, names, Nobody, true);
  }

  // Of a tidy source, exclusion leaves exactly the switches that are not excluded.
  lemma {:induction false} ExcludedSwitches(args: seq<string>, names: set<string>, owner: Owner, n: string)
    ensures Gives(Pick(args, Mask(args, names, owner), false), n) <==> Gives(args, n) && n !in names
  {
    if args != [] {
      var token := args[0];
      var next := OwnerAfter(token, owner);
      var rest := Pick(args[1..], Mask(args[1..], names, next), false);
      MaskStep(args, names, owner);
      ExcludedSwitches(args[1..], names, next, n);
      assert args == [token] + args[1..];
      assert Gives(args, n) <==> (IsSwitch(token) && Name(token) == n) || Gives(args[1..], n);
      assert Gives([token] + rest, n) <==> (IsSwitch(token) && Name(token) == n) || Gives(rest, n);
      assert [] + rest == rest;
    }
  }

  // For tidy sources the merged command is: every token of the preferred source whose switch need not go, then
  // every token of the other source whose switch need not go and is not a protected one that the preferred source
  // gives, in order, without the stray empty tokens.
  lemma MergeMeaning(cfg: Config, task: seq<string>, extra: seq<string>, gone: set<string>, taken: set<string>)
    requires Tidy(task) && Tidy(extra)
    requires forall n :: n in gone <==> MustGo(cfg, task, extra, n)
    requires forall n :: n in taken <==>
      n in cfg.protected && n !in gone && Gives(if cfg.extraFirst then extra else task, n)
    ensures
      var first := if cfg.extraFirst then extra else task;
      var second := if cfg.extraFirst then task else extra;
      && Merge(cfg, task, extra)
         == DropStray(Pick(first, Mask(first, gone, Nobody), false))
            + DropStray(Pick(second, Mask(second, gone + taken, Nobody), false))
      && NonEmpty(Merge(cfg, task, extra))
         == NonEmpty(Pick(first, Mask(first, gone, Nobody), false))
            + NonEmpty(Pick(second, Mask(second, gone + taken, Nobody), false))
  {
    var first, second := if cfg.extraFirst then extra else task, if cfg.extraFirst then task else extra;
    GoneIsStripped(cfg, task, extra, gone);
    ExcludeMeaning(first, gone);
    TakenIsProtected(cfg, task, extra, gone, taken);
    TidyFilterIsScan(second, gone);
    TidyFilterIsScan(Filter(second, gone, {}), taken);
    ScanTwice(second, gone, taken, true, true);
    ScanExcludes(second, gone + taken, Nobody, true);
    NonEmptyConcat(DropStray(Preferred(cfg, task, extra)), DropStray(Remaining(cfg, task, extra)));
    DropKeepsNonEmpty("", Preferred(cfg, task, extra));
    DropKeepsNonEmpty("", Remaining(cfg, task, extra));
  }

  lemma GoneIsStripped(cfg: Config, task: seq<string>, extra: seq<string>, gone: set<string>)
    requires forall n :: n in gone <==> MustGo(cfg, task, extra, n)
    ensures gone == Stripped(cfg, task, extra)
  {
    forall n ensures n in gone <==> n in Stripped(cfg, task, extra) {
      StrippedExactly(cfg, task, extra, n);
    }
  }

  lemma TakenIsProtected(cfg: Config, task: seq<string>, extra: seq<string>, gone: set<string>, taken: set<string>)
    requires Tidy(task) && Tidy(extra) && gone == Stripped(cfg, task, extra)
    requires forall n :: n in taken <==>
      n in cfg.protected && n !in gone && Gives(if cfg.extraFirst then extra else task, n)
    ensures taken == SwitchSet(Preferred(cfg, task, extra)) * cfg.protected
  {
    var first := if cfg.extraFirst then extra else task;
    ExcludeMeaning(first, gone);
    forall n ensures n in taken <==> n in SwitchSet(Preferred(cfg, task, extra)) * cfg.protected {
      ExcludedSwitches(first, gone, Nobody, n);
      assert n in Switches(Preferred(cfg, task, extra)) <==> Gives(Preferred(cfg, task, extra), n);
    }
  }

  lemma {:induction false} NonEmptyConcat(a: seq<string>, b: seq<string>)
    ensures NonEmpty(a + b) == NonEmpty(a) + NonEmpty(b)
  {
    if a == [] {
      assert a + b == b;
    } else {
      assert (a + b)[1..] == a[1..] + b;
      NonEmptyConcat(a[1..], b);
    }
  }

  // The only empty tokens of a command are the values of space-form entrypoint switches.
  lemma {:induction false} EmptyTokensAreEntrypointValues(prev: string, args: seq<string>, k: nat)
    requires k < |DropFrom(prev, args)| && DropFrom(prev, args)[k] == ""
    ensures BareEntrypoint(if k == 0 then prev else DropFrom(prev, args)[k - 1])
    decreases |args|
  {
    if args[0] != "" || BareEntrypoint(prev) {
      if k > 0 {
        EmptyTokensAreEntrypointValues(args[0], args[1..], k - 1);
      }
    } else {
      EmptyTokensAreEntrypointValues(args[0], args[1..], k);
    }
  }
}
