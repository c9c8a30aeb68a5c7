/** The recursive config merge and the merged CODEX_CONFIG. */
module DeepMerge {
  import opened Json
  import opened Options

  type Fields = map<string, Json>

  /** What a key holds after merging `overlay` over `base`. */
  function MergeValue(base: Json, overlay: Json): Json
    decreases overlay
  {
    if base.Obj? && overlay.Obj? then
      Obj(map k | k in base.fields.Keys + overlay.fields.Keys ::
            if k !in overlay.fields then base.fields[k]
            else if k !in base.fields then overlay.fields[k]
            else MergeValue(base.fields[k], overlay.fields[k]))
    else overlay
  }

  function Merge(base: Fields, overlay: Fields): Fields {
    MergeValue(Obj(base), Obj(overlay)).fields
  }

  lemma MergeAt(base: Fields, overlay: Fields, k: string)
    requires k in overlay
    ensures k in Merge(base, overlay)
    ensures Merge(base, overlay)[k] ==
              if k in base && base[k].Obj? && overlay[k].Obj? then Obj(Merge(base[k].fields, overlay[k].fields))
              else overlay[k]
  {
    if k in base {
      assert Merge(base, overlay)[k] == MergeValue(base[k], overlay[k]);
      if base[k].Obj? && overlay[k].Obj? {
        var inner := MergeValue(base[k], overlay[k]);
        assert base[k] == Obj(base[k].fields) && overlay[k] == Obj(overlay[k].fields);
        assert inner.Obj? && inner == Obj(inner.fields);
      }
    }
  }

  lemma MergeDomain(base: Fields, overlay: Fields)
    ensures Merge(base, overlay).Keys == base.Keys + overlay.Keys
    ensures forall k :: k in base && k !in overlay ==> Merge(base, overlay)[k] == base[k]
  {
  }

  /** The part of the merge that is done once the keys in `todo` are left. */
  ghost predicate MergedSoFar(base: Fields, overlay: Fields, todo: set<string>, merged: Fields) {
    && merged.Keys == base.Keys + (overlay.Keys - todo)
    && (forall k :: k in merged && k !in todo && k in Merge(base, overlay) ==> merged[k] == Merge(base, overlay)[k])
    && (forall k :: k in merged && k in todo && k in base ==> merged[k] == base[k])
  }

  lemma MergedOne(base: Fields, overlay: Fields, todo: set<string>, merged: Fields, k: string)
    requires todo <= overlay.Keys && k in todo && MergedSoFar(base, overlay, todo, merged)
    ensures k in merged ==> merged[k] == base[k]
    ensures k in merged <==> k in base
    ensures k in Merge(base, overlay)
    ensures Merge(base, overlay)[k] == if k in merged then MergeValue(merged[k], overlay[k]) else overlay[k]
    ensures MergedSoFar(base, overlay, todo - {k}, merged[k := Merge(base, overlay)[k]])
  {
    MergeAt(base, overlay, k);
  }

  /** One key of the overlay, given what the base holds there. */
  method MergeKey(slot: Option<Json>, overlay: Json) returns (value: Json)
    ensures value == if slot.Some? then MergeValue(slot.value, overlay) else overlay
    decreases overlay, 1
  {
    if slot.Some? && slot.value.Obj? && overlay.Obj? {
      assert slot.value == Obj(slot.value.fields) && overlay == Obj(overlay.fields);
      var inner := DeepMergeInto(slot.value.fields, overlay.fields);
      value := Obj(inner);
    } else {
      value := overlay;
    }
  }

  lemma MergedAll(base: Fields, overlay: Fields, merged: Fields)
    requires MergedSoFar(base, overlay, {}, merged)
    ensures merged == Merge(base, overlay)
  {
    MergeDomain(base, overlay);
  }

  /** In-place merging, key by key in any order. */
  method DeepMergeInto(base: Fields, overlay: Fields) returns (merged: Fields)
    ensures merged == Merge(base, overlay)
    decreases Obj(overlay), 0
  {
    merged := base;
    var todo := overlay.Keys;
    while todo != {}
      invariant todo <= overlay.Keys && MergedSoFar(base, overlay, todo, merged)
      decreases |todo|
    {
      var k :| k in todo;
      MergedOne(base, overlay, todo, merged, k);
      assert Obj(overlay).fields[k] == overlay[k];
      var value := MergeKey(Get(Obj(merged), k), overlay[k]);
      merged := merged[k := value];
      todo := todo - {k};
    }
    MergedAll(base, overlay, merged);
  }

  // ------------------------------------------------------------ Path semantics

  type Path = seq<string>

  /** The value a path leads to through objects. */
  function Lookup(j: Json, path: Path): Option<Json>
    decreases |path|
  {
    if path == [] then Some(j)
    else match Get(j, path[0])
      case Some(v) => Lookup(v, path[1..])
      case None => None
  }

  /** Both sides are objects all along the path, up to but not including its end. */
  predicate ObjectsAlong(base: Json, overlay: Json, path: Path)
    decreases |path|
  {
    path == [] ||
    (&& base.Obj? && overlay.Obj?
     && (path[0] in base.fields && path[0] in overlay.fields ==>
           ObjectsAlong(base.fields[path[0]], overlay.fields[path[0]], path[1..])))
  }

  /** A non-object of the overlay wins at its path, whatever the base had there. */
  lemma {:induction false} OverlayLeafWins(base: Json, overlay: Json, path: Path)
    requires Lookup(overlay, path).Some? && !Lookup(overlay, path).value.Obj?
    ensures Lookup(MergeValue(base, overlay), path) == Lookup(overlay, path)
    decreases |path|
  {
    if path != [] && base.Obj? && path[0] in base.fields {
      OverlayLeafWins(base.fields[path[0]], overlay.fields[path[0]], path[1..]);
    }
  }

  /** Where the overlay runs out of keys below objects of both sides, the base stays. */
  lemma {:induction false} BaseSurvives(base: Json, overlay: Json, path: Path)
    requires Lookup(overlay, path).None? && ObjectsAlong(base, overlay, path)
    ensures Lookup(MergeValue(base, overlay), path) == Lookup(base, path)
    decreases |path|
  {
    if path[0] in overlay.fields && path[0] in base.fields {
      BaseSurvives(base.fields[path[0]], overlay.fields[path[0]], path[1..]);
    }
  }

  /** These two, and objects on both sides, account for every path into the result. */
  lemma {:induction false} EveryPathExplained(base: Json, overlay: Json, path: Path)
    ensures match Lookup(MergeValue(base, overlay), path)
      case None => Lookup(overlay, path).None? && (ObjectsAlong(base, overlay, path) ==> Lookup(base, path).None?)
      case Some(v) =>
        || Lookup(overlay, path) == Some(v)
        || (Lookup(overlay, path).None? && ObjectsAlong(base, overlay, path) && Lookup(base, path) == Some(v))
        || (&& Lookup(base, path).Some? && Lookup(base, path).value.Obj?
            && Lookup(overlay, path).Some? && Lookup(overlay, path).value.Obj?
            && v == MergeValue(Lookup(base, path).value, Lookup(overlay, path).value))
    decreases |path|
  {
    if path != [] && base.Obj? && overlay.Obj? && path[0] in base.fields && path[0] in overlay.fields {
      EveryPathExplained(base.fields[path[0]], overlay.fields[path[0]], path[1..]);
    }
  }

  lemma {:induction false} MergeSelf(a: Json)
    ensures MergeValue(a, a) == a
    decreases a
  {
    if a.Obj? {
      forall k | k in a.fields ensures MergeValue(a.fields[k], a.fields[k]) == a.fields[k] {
        MergeSelf(a.fields[k]);
      }
      assert MergeValue(a, a).fields == a.fields;
    }
  }

  /** Merging the same overlay again changes nothing. */
  lemma {:induction false} MergeAgain(a: Json, b: Json)
    ensures MergeValue(MergeValue(a, b), b) == MergeValue(a, b)
    decreases b
  {
    if b.Obj? {
      var m := MergeValue(a, b);
      forall k | k in b.fields && k in m.fields ensures MergeValue(m.fields[k], b.fields[k]) == m.fields[k] {
        if a.Obj? && k in a.fields {
          MergeAgain(a.fields[k], b.fields[k]);
        } else {
          MergeSelf(b.fields[k]);
        }
      }
      assert MergeValue(m, b).fields == m.fields;
    }
  }

  /** Everything in `a` is overridden by `c`. */
  predicate Covered(a: Json, c: Json)
    decreases c
  {
    a.Obj? && c.Obj? ==>
      forall k :: k in a.fields ==> k in c.fields && Covered(a.fields[k], c.fields[k])
  }

  lemma {:induction false} CoveredIff(a: Json, c: Json)
    ensures MergeValue(a, c) == c <==> Covered(a, c)
    decreases c
  {
    if a.Obj? && c.Obj? {
      var m := MergeValue(a, c);
      forall k | k in a.fields && k in c.fields
        ensures m.fields[k] == c.fields[k] <==> Covered(a.fields[k], c.fields[k])
      {
        CoveredIff(a.fields[k], c.fields[k]);
      }
      if Covered(a, c) {
        assert m.fields == c.fields;
      }
    }
  }

  /** Nowhere does a non-object in the middle wipe something of an object on the left that
      an object on the right does not override anyway. */
  predicate WipesNothing(a: Json, b: Json, c: Json)
    decreases c
  {
    a.Obj? && c.Obj? ==>
      if b.Obj? then
        forall k :: k in a.fields && k in b.fields && k in c.fields ==>
          WipesNothing(a.fields[k], b.fields[k], c.fields[k])
      else Covered(a, c)
  }

  /** Merging is associative on exactly those triples. */
  lemma {:induction false} AssociativeIff(a: Json, b: Json, c: Json)
    ensures MergeValue(MergeValue(a, b), c) == MergeValue(a, MergeValue(b, c)) <==> WipesNothing(a, b, c)
    decreases c
  {
    CoveredIff(a, c);
    if c.Obj? && b.Obj? && a.Obj? {
      var l, r := MergeValue(MergeValue(a, b), c), MergeValue(a, MergeValue(b, c));
      assert l.fields.Keys == r.fields.Keys;
      forall k | k in l.fields
        ensures l.fields[k] == r.fields[k] <==>
                (k in a.fields && k in b.fields && k in c.fields ==>
                   WipesNothing(a.fields[k], b.fields[k], c.fields[k]))
      {
        if k in a.fields && k in b.fields && k in c.fields {
          AssociativeIff(a.fields[k], b.fields[k], c.fields[k]);
        }
      }
      if WipesNothing(a, b, c) {
        assert l.fields == r.fields;
      }
    }
  }

  /** A scalar in the middle does break it. */
  lemma NotAssociative()
    ensures var a, b, c := Obj(map["k" := Null]), Bool(true), Obj(map[]);
      MergeValue(MergeValue(a, b), c) != MergeValue(a, MergeValue(b, c))
  {
    var a, b, c := Obj(map["k" := Null]), Bool(true), Obj(map[]);
    assert "k" in a.fields;
    AssociativeIff(a, b, c);
  }

  // ----------------------------------------------------------- The merged config

  datatype ConfigError =
    | EntryNotJson(index: nat)
    | EntryNotObject(index: nat)
    | ParentNotJson
    | ParentNotObject
    | SandboxNotObject

  datatype Outcome = Skipped | Built(config: Fields) | Rejected(error: ConfigError)

  const SANDBOX := "sandbox_workspace_write"
  const NETWORK := "network_access"

  /** The forced overlay. */
  function Forced(): Fields {
    map[SANDBOX := Obj(map[NETWORK := Bool(true)])]
  }

  /** The `CODEX_CONFIG` entries among the environment pairs, in order. */
  function CodexEntries(env: seq<(string, string)>): seq<string> {
    if env == [] then []
    else if env[0].0 == "CODEX_CONFIG" then [env[0].1] + CodexEntries(env[1..])
    else CodexEntries(env[1..])
  }

  /** `idx` are the indices from `from` on, in order, of the pairs under that key. */
  ghost predicate Lists(env: seq<(string, string)>, from: nat, idx: seq<nat>) {
    && (forall j, k :: 0 <= j < k < |idx| ==> idx[j] < idx[k])
    && (forall k :: 0 <= k < |idx| ==> from <= idx[k] < |env|)
    && forall i :: from <= i < |env| ==> (env[i].0 == "CODEX_CONFIG" <==> i in idx)
  }

  lemma ListsOneMore(env: seq<(string, string)>, from: nat, idx: seq<nat>)
    requires from < |env| && Lists(env, from + 1, idx)
    ensures Lists(env, from, if env[from].0 == "CODEX_CONFIG" then [from] + idx else idx)
  {
  }

  /** The pairs there hold the values. */
  ghost predicate Holds(env: seq<(string, string)>, idx: seq<nat>, values: seq<string>) {
    |idx| == |values| && forall k :: 0 <= k < |idx| ==> idx[k] < |env| && env[idx[k]].1 == values[k]
  }

  lemma HoldsOneMore(env: seq<(string, string)>, from: nat, idx: seq<nat>, values: seq<string>)
    requires from < |env| && Holds(env, idx, values)
    ensures Holds(env, [from] + idx, [env[from].1] + values)
  {
  }

  lemma {:induction false} EntriesFrom(env: seq<(string, string)>, from: nat) returns (idx: seq<nat>)
    requires from <= |env|
    ensures Lists(env, from, idx) && Holds(env, idx, CodexEntries(env[from..]))
    decreases |env| - from
  {
    if from == |env| {
      idx := [];
    } else {
      idx := EntriesFrom(env, from + 1);
      ListsOneMore(env, from, idx);
      HoldsOneMore(env, from, idx, CodexEntries(env[from + 1..]));
      assert env[from..][0] == env[from] && env[from..][1..] == env[from + 1..];
      if env[from].0 == "CODEX_CONFIG" {
        idx := [from] + idx;
      }
    }
  }

  /** The entries are the values of exactly the pairs under that key, in the order of the pairs. */
  lemma CodexEntriesAt(env: seq<(string, string)>) returns (idx: seq<nat>)
    ensures |idx| == |CodexEntries(env)| && forall j, k :: 0 <= j < k < |idx| ==> idx[j] < idx[k]
    ensures forall k :: 0 <= k < |idx| ==> idx[k] < |env| && env[idx[k]] == ("CODEX_CONFIG", CodexEntries(env)[k])
    ensures forall i :: 0 <= i < |env| && env[i].0 == "CODEX_CONFIG" ==> i in idx
  {
    idx := EntriesFrom(env, 0);
    assert env[0..] == env;
    forall k | 0 <= k < |idx| ensures env[idx[k]] == ("CODEX_CONFIG", CodexEntries(env)[k]) {
      assert idx[k] in idx;
    }
  }

  /** The plain fold of merges over objects. */
  function MergeAll(base: Fields, overlays: seq<Fields>): Fields
    decreases |overlays|
  {
    if overlays == [] then base else MergeAll(Merge(base, overlays[0]), overlays[1..])
  }

  method BuildCodexConfigEnv(env: seq<(string, string)>, parent: Option<string>, generated: bool,
                             parse: string -> Option<Json>) returns (outcome: Outcome, ghost parts: seq<Fields>)
    ensures outcome.Skipped? <==> !generated || CodexEntries(env) == []
    ensures outcome.Built? ==>
      && ObjectsOf(CodexEntries(env) + (if parent.Some? then [parent.value] else []), parse, parts)
      && outcome.config == Merge(MergeAll(parts[0], parts[1..]), Forced())
      && (SANDBOX in MergeAll(parts[0], parts[1..]) ==> MergeAll(parts[0], parts[1..])[SANDBOX].Obj?)
    ensures outcome.Rejected? ==> Explains(CodexEntries(env), parent, parse, outcome.error)
    ensures outcome == Rejected(SandboxNotObject) ==>
      && ObjectsOf(CodexEntries(env) + (if parent.Some? then [parent.value] else []), parse, parts)
      && var merged := MergeAll(parts[0], parts[1..]);
         SANDBOX in merged && !merged[SANDBOX].Obj?
  {
    parts := [];
    if !generated {
      return Skipped, parts;
    }
    var entries := CodexEntries(env);
    if entries == [] {
      return Skipped, parts;
    }
    var parsed: seq<Fields> := [];
    for i := 0 to |entries|
      invariant ObjectsOf(entries[..i], parse, parsed)
      invariant forall k :: 0 <= k < i ==> IsObject(entries[k], parse)
    {
      var value := parse(entries[i]);
      if value.None? {
        return Rejected(EntryNotJson(i)), parts;
      }
      if !value.value.Obj? {
        return Rejected(EntryNotObject(i)), parts;
      }
      parsed := parsed + [value.value.fields];
      assert entries[..i + 1] == entries[..i] + [entries[i]];
    }
    assert entries[..|entries|] == entries;
    var base := parsed[0];
    for i := 1 to |parsed|
      invariant MergeAll(base, parsed[i..]) == MergeAll(parsed[0], parsed[1..])
    {
      assert parsed[i..][1..] == parsed[i + 1..];
      base := DeepMergeInto(base, parsed[i]);
    }
    parts := parsed;
    if parent.Some? {
      var value := parse(parent.value);
      if value.None? {
        return Rejected(ParentNotJson), parts;
      }
      if !value.value.Obj? {
        return Rejected(ParentNotObject), parts;
      }
      MergeAllSnoc(parsed[0], parsed[1..], value.value.fields);
      base := DeepMergeInto(base, value.value.fields);
      parts := parsed + [value.value.fields];
      assert parts[1..] == parsed[1..] + [value.value.fields];
    } else {
      assert entries + [] == entries;
    }
    if SANDBOX !in base {
      ForceMissing(base);
      base := base[SANDBOX := Obj(map[])];
    }
    var sandbox := base[SANDBOX];
    if !sandbox.Obj? {
      return Rejected(SandboxNotObject), parts;
    }
    ForcePresent(base);
    outcome := Built(base[SANDBOX := Obj(sandbox.fields[NETWORK := Bool(true)])]);
  }

  predicate IsObject(raw: string, parse: string -> Option<Json>) {
    parse(raw).Some? && parse(raw).value.Obj?
  }

  /** An error names the first value that is not an object, and says what it is instead; the
      entries come before the parent's value, and both before the sandbox. */
  ghost predicate Explains(entries: seq<string>, parent: Option<string>, parse: string -> Option<Json>,
                           error: ConfigError) {
    match error
    case EntryNotJson(i) =>
      && i < |entries| && parse(entries[i]).None?
      && forall k :: 0 <= k < i ==> IsObject(entries[k], parse)
    case EntryNotObject(i) =>
      && i < |entries| && parse(entries[i]).Some? && !IsObject(entries[i], parse)
      && forall k :: 0 <= k < i ==> IsObject(entries[k], parse)
    case ParentNotJson =>
      && parent.Some? && parse(parent.value).None?
      && forall k :: 0 <= k < |entries| ==> IsObject(entries[k], parse)
    case ParentNotObject =>
      && parent.Some? && parse(parent.value).Some? && !IsObject(parent.value, parse)
      && forall k :: 0 <= k < |entries| ==> IsObject(entries[k], parse)
    case SandboxNotObject =>
      && (parent.Some? ==> IsObject(parent.value, parse))
      && forall k :: 0 <= k < |entries| ==> IsObject(entries[k], parse)
  }

  /** `parts` are the objects the raw entries parse to. */
  ghost predicate ObjectsOf(raw: seq<string>, parse: string -> Option<Json>, parts: seq<Fields>) {
    && |raw| == |parts|
    && forall i :: 0 <= i < |raw| ==> parse(raw[i]) == Some(Obj(parts[i]))
  }

  lemma {:induction false} MergeAllSnoc(base: Fields, overlays: seq<Fields>, last: Fields)
    ensures MergeAll(base, overlays + [last]) == Merge(MergeAll(base, overlays), last)
    decreases |overlays|
  {
    if overlays == [] {
      assert MergeAll(base, [last]) == MergeAll(Merge(base, last), []);
    } else {
      assert (overlays + [last])[1..] == overlays[1..] + [last];
      MergeAllSnoc(Merge(base, overlays[0]), overlays[1..], last);
    }
  }

  /** Setting the flag in an existing sandbox object is merging the forced overlay. */
  lemma ForcePresent(base: Fields)
    requires SANDBOX in base && base[SANDBOX].Obj?
    ensures base[SANDBOX := Obj(base[SANDBOX].fields[NETWORK := Bool(true)])] == Merge(base, Forced())
  {
    MergeDomain(base, Forced());
    MergeAt(base, Forced(), SANDBOX);
    var inner := base[SANDBOX].fields;
    var overlay: Fields := map[NETWORK := Bool(true)];
    MergeDomain(inner, overlay);
    MergeAt(inner, overlay, NETWORK);
    assert inner[NETWORK := Bool(true)] == Merge(inner, overlay);
    assert base[SANDBOX := Obj(inner[NETWORK := Bool(true)])] == Merge(base, Forced());
  }

  /** Creating it first makes no difference to that merge. */
  lemma ForceMissing(base: Fields)
    requires SANDBOX !in base
    ensures Merge(base[SANDBOX := Obj(map[])], Forced()) == Merge(base, Forced())
  {
    var created := base[SANDBOX := Obj(map[])];
    MergeDomain(base, Forced());
    MergeDomain(created, Forced());
    MergeAt(base, Forced(), SANDBOX);
    MergeAt(created, Forced(), SANDBOX);
    var overlay: Fields := map[NETWORK := Bool(true)];
    MergeDomain(map[], overlay);
    MergeAt(map[], overlay, NETWORK);
    assert Merge(map[], overlay) == overlay;
    assert Merge(created, Forced()) == Merge(base, Forced());
  }

  /** The forced merge grants network access and touches no other path. */
  lemma ForcedTouchesOnlyNetwork(merged: Fields, path: Path)
    requires SANDBOX in merged ==> merged[SANDBOX].Obj?
    ensures Lookup(Obj(Merge(merged, Forced())), [SANDBOX, NETWORK]) == Some(Bool(true))
    ensures path != [] && path != [SANDBOX] && !([SANDBOX, NETWORK] <= path) ==>
              Lookup(Obj(Merge(merged, Forced())), path) == Lookup(Obj(merged), path)
    ensures SANDBOX in merged ==>
              Lookup(Obj(Merge(merged, Forced())), [SANDBOX])
                == Some(Obj(merged[SANDBOX].fields[NETWORK := Bool(true)]))
    ensures SANDBOX !in merged ==>
              Lookup(Obj(Merge(merged, Forced())), [SANDBOX]) == Some(Obj(map[NETWORK := Bool(true)]))
  {
    var result := Merge(merged, Forced());
    MergeDomain(merged, Forced());
    MergeAt(merged, Forced(), SANDBOX);
    if SANDBOX in merged {
      ForcePresent(merged);
    }
    var sandbox := result[SANDBOX];
    assert sandbox.Obj? && Get(sandbox, NETWORK) == Some(Bool(true));
    assert [SANDBOX, NETWORK][1..] == [NETWORK] && [NETWORK][1..] == [];
    assert Lookup(sandbox, [NETWORK]) == Some(Bool(true));
    if path != [] && path[0] == SANDBOX && |path| > 1 && path[1] != NETWORK {
      assert path[1..][0] == path[1];
    }
    if |path| >= 2 && path[0] == SANDBOX && path[1] == NETWORK {
      assert path[..2] == [SANDBOX, NETWORK];
    }
  }
}
