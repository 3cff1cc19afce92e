/** Inlining `$ref` in JSON schemas. Dictionaries are maps: the order of their keys is not modelled. */
module SchemaRefs {
  import opened Results

  datatype Json =
    | Null
    | Bool(b: bool)
    | Num(n: int)
    | Str(s: string)
    | List(items: seq<Json>)
    | Dict(fields: map<string, Json>)

  type Defs = map<string, Json>

  datatype Error =
    | UnhashableRef   // TypeError: a truthy `$ref` that is itself a list or a dictionary
    | DefsNotADict    // AttributeError: `$defs` has no items

  predicate Truthy(j: Json)
  {
    match j
    case Null => false
    case Bool(b) => b
    case Num(n) => n != 0
    case Str(s) => s != ""
    case List(items) => items != []
    case Dict(fields) => fields != map[]
  }

  /** The reference a node is, if `schema.get("$ref")` is truthy. */
  function RefOf(j: Json): Option<Json>
  {
    if j.Dict? && "$ref" in j.fields && Truthy(j.fields["$ref"]) then Some(j.fields["$ref"]) else None
  }

  /** The definition a node refers to, when it resolves. */
  function Target(keys: set<string>, j: Json): Option<string>
  {
    var ref := RefOf(j);
    if ref.Some? && ref.value.Str? && ref.value.s in keys then Some(ref.value.s) else None
  }

  // ---------------------------------------------------------------- the code

  /** Whether looking up some `$ref` that the walk meets raises. */
  predicate Raises(j: Json)
  {
    if RefOf(j).Some? then RefOf(j).value.List? || RefOf(j).value.Dict?
    else if j.List? then exists i :: 0 <= i < |j.items| && Raises(j.items[i])
    else if j.Dict? then exists k :: k in j.fields && Raises(j.fields[k])
    else false
  }

  /** The walk of `replace_ref` where nothing raises: a resolvable reference becomes its definition
      as it stands, any other reference is left alone with everything below it. */
  function Inline(defs: Defs, j: Json): Json
  {
    if RefOf(j).Some? then
      var t := Target(defs.Keys, j);
      if t.Some? then defs[t.value] else j
    else if j.List? then
      List(seq(|j.items|, i requires 0 <= i < |j.items| => Inline(defs, j.items[i])))
    else if j.Dict? then
      Dict(map k | k in j.fields :: Inline(defs, j.fields[k]))
    else
      j
  }

  function ReplaceRef(defs: Defs, schema: Json): Result<Json, Error>
  {
    if Raises(schema) then Err(UnhashableRef) else Ok(Inline(defs, schema))
  }

  const PREFIX: string := "#/$defs/"

  /** `{f"#/$defs/{key}": value for key, value in ...}`. */
  function Prefixed(defs: Defs): (r: Defs)
    ensures forall k :: k in defs ==> PREFIX + k in r && r[PREFIX + k] == defs[k]
    ensures forall p :: p in r ==> PREFIX <= p && p[|PREFIX|..] in defs && r[p] == defs[p[|PREFIX|..]]
  {
    var keys := set k | k in defs :: PREFIX + k;
    assert forall k :: k in defs ==> (PREFIX + k)[|PREFIX|..] == k;
    map p | p in keys :: defs[p[|PREFIX|..]]
  }

  /** The second pass over the definitions themselves. */
  function Rewritten(defs: Defs): (r: Defs)
    ensures r.Keys == defs.Keys
  {
    map k | k in defs :: Inline(defs, defs[k])
  }

  /** `data.get("$defs", {})`. */
  function DefsOf(data: map<string, Json>): Json
  {
    if "$defs" in data then data["$defs"] else Dict(map[])
  }

  /** The definitions under their prefixed names, each rewritten once. It fails exactly if `$defs` is no
      dictionary or the walk through some definition raises. */
  function GetDefs(data: map<string, Json>): (r: Result<Defs, Error>)
    ensures r.Ok? <==> DefsOf(data).Dict? && forall k :: k in DefsOf(data).fields ==> !Raises(DefsOf(data).fields[k])
    ensures r.Ok? ==> r.value == Rewritten(Prefixed(DefsOf(data).fields))
    ensures r == Err(DefsNotADict) <==> !DefsOf(data).Dict?
  {
    if !DefsOf(data).Dict? then Err(DefsNotADict)
    else
      var res := Prefixed(DefsOf(data).fields);
      assert forall k :: k in DefsOf(data).fields ==> Dict(res).fields[PREFIX + k] == DefsOf(data).fields[k];
      assert RefOf(Dict(res)).None? by { assert "$ref"[0] != PREFIX[0]; }
      match ReplaceRef(res, Dict(res))
      case Ok(inlined) => Ok(inlined.fields)
      case Err(e) => Err(e)
  }

  function ModelJsonSchema(data: map<string, Json>): Result<Json, Error>
  {
    match GetDefs(data)
    case Err(e) => Err(e)
    case Ok(defs) => ReplaceRef(defs, Dict(data))
  }

  // ---------------------------------------------------------------- the walk, node by node

  /** A way down: into an element of a list or a value of a dictionary. */
  datatype Way = Element(i: nat) | Value(k: string)

  function At(j: Json, path: seq<Way>): Option<Json>
    decreases |path|
  {
    if path == [] then Some(j)
    else
      match path[0]
      case Element(i) => if j.List? && i < |j.items| then At(j.items[i], path[1..]) else None
      case Value(k) => if j.Dict? && k in j.fields then At(j.fields[k], path[1..]) else None
  }

  /** A dictionary whose `$ref` is there and not empty, zero or false. */
  predicate IsReference(j: Json)
  {
    j.Dict? && "$ref" in j.fields && j.fields["$ref"] !in [Null, Bool(false), Num(0), Str(""), List([]), Dict(map[])]
  }

  /** What the walk meets at the end of a path that leads through no reference. */
  function Met(j: Json, path: seq<Way>): Option<Json>
    decreases |path|
  {
    if path == [] then Some(j)
    else if IsReference(j) then None
    else
      match path[0]
      case Element(i) => if j.List? && i < |j.items| then Met(j.items[i], path[1..]) else None
      case Value(k) => if j.Dict? && k in j.fields then Met(j.fields[k], path[1..]) else None
  }

  /** What inlining makes of a node that the walk meets: a reference to a definition becomes that definition,
      any other reference stays as it is with all below it; a list keeps its length and a dictionary its
      keys. */
  predicate Inlined(defs: Defs, before: Json, after: Json)
  {
    if IsReference(before) then
      var ref := before.fields["$ref"];
      if ref.Str? && ref.s in defs then after == defs[ref.s] else after == before
    else if before.List? then after.List? && |after.items| == |before.items|
    else if before.Dict? then after.Dict? && after.fields.Keys == before.fields.Keys
    else after == before
  }

  lemma ReferencesAgree(j: Json)
    ensures IsReference(j) <==> RefOf(j).Some?
    ensures IsReference(j) ==> RefOf(j).value == j.fields["$ref"]
  {
  }

  lemma {:induction false} InlinesAt(defs: Defs, j: Json, path: seq<Way>)
    requires Met(j, path).Some?
    ensures At(Inline(defs, j), path).Some? && Inlined(defs, Met(j, path).value, At(Inline(defs, j), path).value)
    decreases |path|
  {
    ReferencesAgree(j);
    if path != [] {
      match path[0]
      case Element(i) => InlinesAt(defs, j.items[i], path[1..]);
      case Value(k) => InlinesAt(defs, j.fields[k], path[1..]);
    }
  }

  /** A reference that is a list or a dictionary and so cannot be looked up. */
  predicate Unhashable(j: Json)
  {
    IsReference(j) && (j.fields["$ref"].List? || j.fields["$ref"].Dict?)
  }

  ghost predicate MeetsUnhashable(j: Json, path: seq<Way>)
  {
    Met(j, path).Some? && Unhashable(Met(j, path).value)
  }

  /** `replace_ref` raises exactly if the walk meets such a reference; otherwise it puts in the place of every
      node it meets what that node becomes. */
  lemma ReplacesExactly(defs: Defs, schema: Json)
    ensures ReplaceRef(defs, schema).Err? <==> exists path :: MeetsUnhashable(schema, path)
    ensures ReplaceRef(defs, schema).Ok? ==>
              forall path :: Met(schema, path).Some? ==>
                && At(ReplaceRef(defs, schema).value, path).Some?
                && Inlined(defs, Met(schema, path).value, At(ReplaceRef(defs, schema).value, path).value)
  {
    if Raises(schema) { var path := RaisingPath(schema); }
    if path :| MeetsUnhashable(schema, path) { UnhashableRaises(schema, path); }
    forall path | Met(schema, path).Some?
      ensures At(Inline(defs, schema), path).Some? && Inlined(defs, Met(schema, path).value, At(Inline(defs, schema), path).value)
    {
      InlinesAt(defs, schema, path);
    }
  }

  lemma {:induction false} UnhashableRaises(j: Json, path: seq<Way>)
    requires MeetsUnhashable(j, path)
    ensures Raises(j)
    decreases |path|
  {
    ReferencesAgree(j);
    if path != [] {
      match path[0]
      case Element(i) => UnhashableRaises(j.items[i], path[1..]);
      case Value(k) => UnhashableRaises(j.fields[k], path[1..]);
    }
  }

  lemma {:induction false} RaisingPath(j: Json) returns (path: seq<Way>)
    requires Raises(j)
    ensures MeetsUnhashable(j, path)
  {
    ReferencesAgree(j);
    if RefOf(j).Some? {
      path := [];
    } else if j.List? {
      var i :| 0 <= i < |j.items| && Raises(j.items[i]);
      var rest := RaisingPath(j.items[i]);
      path := [Element(i)] + rest;
      assert path[1..] == rest;
    } else {
      var k :| k in j.fields && Raises(j.fields[k]);
      var rest := RaisingPath(j.fields[k]);
      path := [Value(k)] + rest;
      assert path[1..] == rest;
    }
  }

  /** A definition goes by its name after "#/$defs/", and nothing else goes by any name. */
  lemma DefinitionsAreNamed(data: map<string, Json>, name: string)
    requires GetDefs(data).Ok?
    ensures DefsOf(data).Dict?
    ensures name in GetDefs(data).value <==> "#/$defs/" <= name && name[8..] in DefsOf(data).fields
    ensures name in GetDefs(data).value ==>
              GetDefs(data).value[name] == Inline(Prefixed(DefsOf(data).fields), DefsOf(data).fields[name[8..]])
  {
    assert PREFIX == "#/$defs/" && |PREFIX| == 8;
    var defs := DefsOf(data).fields;
    if "#/$defs/" <= name && name[8..] in defs { assert name == PREFIX + name[8..]; }
  }

  /** The definitions are those under "$defs", of which there may be none; it fails exactly if that is no
      dictionary or the walk through some definition meets a reference that cannot be looked up. */
  lemma DefinitionsFailExactly(data: map<string, Json>)
    ensures "$defs" !in data ==> GetDefs(data) == Ok(map[])
    ensures "$defs" in data && !data["$defs"].Dict? ==> GetDefs(data) == Err(DefsNotADict)
    ensures "$defs" in data && data["$defs"].Dict? ==>
              (GetDefs(data) == Err(UnhashableRef) <==>
                 exists k, path :: k in data["$defs"].fields && MeetsUnhashable(data["$defs"].fields[k], path))
  {
    if "$defs" in data {
      if data["$defs"].Dict? {
        var defs := data["$defs"].fields;
        if k :| k in defs && Raises(defs[k]) { var path := RaisingPath(defs[k]); }
        if k, path :| k in defs && MeetsUnhashable(defs[k], path) { UnhashableRaises(defs[k], path); }
      }
    } else {
      assert GetDefs(data).value.Keys == {};
    }
  }

  lemma {:induction false} NothingToInline(j: Json)
    ensures Inline(map[], j) == j
  {
    if RefOf(j).None? {
      if j.List? {
        forall i | 0 <= i < |j.items| ensures Inline(map[], j.items[i]) == j.items[i] { NothingToInline(j.items[i]); }
      } else if j.Dict? {
        forall k | k in j.fields ensures Inline(map[], j.fields[k]) == j.fields[k] { NothingToInline(j.fields[k]); }
      }
    }
  }

  /** A schema without definitions stays as it is. */
  lemma SchemaWithoutDefinitions(data: map<string, Json>)
    requires "$defs" !in data
    ensures ModelJsonSchema(data)
         == if exists path :: MeetsUnhashable(Dict(data), path) then Err(UnhashableRef) else Ok(Dict(data))
  {
    DefinitionsFailExactly(data);
    NothingToInline(Dict(data));
    ReplacesExactly(map[], Dict(data));
  }

  // ---------------------------------------------------------------- meaning: full expansion

  /** Every reference the walk meets and can resolve has a rank below `n`. */
  ghost predicate RefsBelow(rank: map<string, nat>, n: nat, j: Json)
  {
    if RefOf(j).Some? then
      var t := Target(rank.Keys, j);
      t.Some? ==> rank[t.value] < n
    else if j.List? then forall i :: 0 <= i < |j.items| ==> RefsBelow(rank, n, j.items[i])
    else if j.Dict? then forall k :: k in j.fields ==> RefsBelow(rank, n, j.fields[k])
    else true
  }

  /** The definitions are acyclic: `rank` decreases along every reference. */
  ghost predicate Ranks(defs: Defs, rank: map<string, nat>)
  {
    rank.Keys == defs.Keys && forall k :: k in defs ==> RefsBelow(rank, rank[k], defs[k])
  }

  /** What a schema means: every resolvable reference replaced by the meaning of its definition. */
  ghost function Expand(defs: Defs, rank: map<string, nat>, n: nat, j: Json): Json
    requires Ranks(defs, rank) && RefsBelow(rank, n, j)
    decreases n, j
  {
    if RefOf(j).Some? then
      var t := Target(defs.Keys, j);
      if t.Some? then Expand(defs, rank, rank[t.value], defs[t.value]) else j
    else if j.List? then
      List(seq(|j.items|, i requires 0 <= i < |j.items| => Expand(defs, rank, n, j.items[i])))
    else if j.Dict? then
      Dict(map k | k in j.fields :: Expand(defs, rank, n, j.fields[k]))
    else
      j
  }

  /** Neither the ranking nor the bound shows in the meaning. */
  lemma {:induction false} MeaningIgnoresRank(defs: Defs, r: map<string, nat>, n: nat, q: map<string, nat>, m: nat, j: Json)
    requires Ranks(defs, r) && RefsBelow(r, n, j) && Ranks(defs, q) && RefsBelow(q, m, j)
    ensures Expand(defs, r, n, j) == Expand(defs, q, m, j)
    decreases n, j
  {
    if RefOf(j).Some? {
      var t := Target(defs.Keys, j);
      if t.Some? { MeaningIgnoresRank(defs, r, r[t.value], q, q[t.value], defs[t.value]); }
    } else if j.List? {
      forall i | 0 <= i < |j.items| ensures Expand(defs, r, n, j.items[i]) == Expand(defs, q, m, j.items[i]) {
        MeaningIgnoresRank(defs, r, n, q, m, j.items[i]);
      }
    } else if j.Dict? {
      forall k | k in j.fields ensures Expand(defs, r, n, j.fields[k]) == Expand(defs, q, m, j.fields[k]) {
        MeaningIgnoresRank(defs, r, n, q, m, j.fields[k]);
      }
    }
  }

  lemma {:induction false} RefsBelowMonotone(rank: map<string, nat>, n: nat, m: nat, j: Json)
    requires RefsBelow(rank, n, j) && n <= m
    ensures RefsBelow(rank, m, j)
  {
    if RefOf(j).None? {
      if j.List? {
        forall i | 0 <= i < |j.items| ensures RefsBelow(rank, m, j.items[i]) {
          RefsBelowMonotone(rank, n, m, j.items[i]);
        }
      } else if j.Dict? {
        forall k | k in j.fields ensures RefsBelow(rank, m, j.fields[k]) {
          RefsBelowMonotone(rank, n, m, j.fields[k]);
        }
      }
    }
  }

  /** A dictionary that is no reference stays none when its values are rewritten by a function that
      leaves scalars alone. */
  lemma {:induction false} InlineKeepsNonRefs(defs: Defs, j: Json)
    requires RefOf(j).None?
    ensures RefOf(Inline(defs, j)).None?
  {
    if j.Dict? && "$ref" in j.fields {
      assert Inline(defs, j).fields["$ref"] == Inline(defs, j.fields["$ref"]);
    }
  }

  /** One pass of inlining preserves the meaning. */
  lemma {:induction false} InliningPreservesMeaning(defs: Defs, rank: map<string, nat>, n: nat, j: Json)
    requires Ranks(defs, rank) && RefsBelow(rank, n, j)
    ensures RefsBelow(rank, n, Inline(defs, j))
    ensures Expand(defs, rank, n, Inline(defs, j)) == Expand(defs, rank, n, j)
    decreases j
  {
    var out := Inline(defs, j);
    if RefOf(j).Some? {
      var t := Target(defs.Keys, j);
      if t.Some? {
        RefsBelowMonotone(rank, rank[t.value], n, defs[t.value]);
        MeaningIgnoresRank(defs, rank, n, rank, rank[t.value], defs[t.value]);
      }
    } else if j.List? {
      forall i | 0 <= i < |j.items|
        ensures RefsBelow(rank, n, out.items[i])
        ensures Expand(defs, rank, n, out.items[i]) == Expand(defs, rank, n, j.items[i])
      {
        InliningPreservesMeaning(defs, rank, n, j.items[i]);
      }
    } else if j.Dict? {
      InlineKeepsNonRefs(defs, j);
      forall k | k in j.fields
        ensures RefsBelow(rank, n, out.fields[k])
        ensures Expand(defs, rank, n, out.fields[k]) == Expand(defs, rank, n, j.fields[k])
      {
        InliningPreservesMeaning(defs, rank, n, j.fields[k]);
      }
    }
  }

  lemma RewrittenRanks(defs: Defs, rank: map<string, nat>)
    requires Ranks(defs, rank)
    ensures Ranks(Rewritten(defs), rank)
  {
    forall k | k in defs ensures RefsBelow(rank, rank[k], Rewritten(defs)[k]) {
      InliningPreservesMeaning(defs, rank, rank[k], defs[k]);
    }
  }

  /** Rewriting the definitions first changes no meaning either. */
  lemma {:induction false} RewritingPreservesMeaning(defs: Defs, rank: map<string, nat>, n: nat, j: Json)
    requires Ranks(defs, rank) && RefsBelow(rank, n, j)
    ensures Ranks(Rewritten(defs), rank)
    ensures Expand(Rewritten(defs), rank, n, j) == Expand(defs, rank, n, j)
    decreases n, j
  {
    RewrittenRanks(defs, rank);
    var twice := Rewritten(defs);
    if RefOf(j).Some? {
      var t := Target(defs.Keys, j);
      if t.Some? {
        var k := t.value;
        InliningPreservesMeaning(defs, rank, rank[k], defs[k]);
        RewritingPreservesMeaning(defs, rank, rank[k], Inline(defs, defs[k]));
      }
    } else if j.List? {
      forall i | 0 <= i < |j.items|
        ensures Expand(twice, rank, n, j.items[i]) == Expand(defs, rank, n, j.items[i])
      {
        RewritingPreservesMeaning(defs, rank, n, j.items[i]);
      }
    } else if j.Dict? {
      forall k | k in j.fields
        ensures Expand(twice, rank, n, j.fields[k]) == Expand(defs, rank, n, j.fields[k])
      {
        RewritingPreservesMeaning(defs, rank, n, j.fields[k]);
      }
    }
  }

  /** The whole of `model_json_schema`: for acyclic definitions the result means what the schema means. */
  lemma ModelJsonSchemaPreservesMeaning(data: map<string, Json>, rank: map<string, nat>, n: nat)
    requires DefsOf(data).Dict? && ModelJsonSchema(data).Ok?
    requires Ranks(Prefixed(DefsOf(data).fields), rank) && RefsBelow(rank, n, Dict(data))
    ensures var defs, result := Prefixed(DefsOf(data).fields), ModelJsonSchema(data).value;
            RefsBelow(rank, n, result) && Expand(defs, rank, n, result) == Expand(defs, rank, n, Dict(data))
  {
    var defs := Prefixed(DefsOf(data).fields);
    var twice := Rewritten(defs);
    RewritingPreservesMeaning(defs, rank, n, Dict(data));
    InliningPreservesMeaning(twice, rank, n, Dict(data));
    RewritingPreservesMeaning(defs, rank, n, Inline(twice, Dict(data)));
  }

  // ---------------------------------------------------------------- which references remain

  /** The walk meets no reference it can resolve. */
  predicate Resolved(keys: set<string>, j: Json)
  {
    if RefOf(j).Some? then Target(keys, j).None?
    else if j.List? then forall i :: 0 <= i < |j.items| ==> Resolved(keys, j.items[i])
    else if j.Dict? then forall k :: k in j.fields ==> Resolved(keys, j.fields[k])
    else true
  }

  /** Every definition that the walk through `j` meets is itself resolved. */
  predicate RefersToResolved(defs: Defs, j: Json)
  {
    if RefOf(j).Some? then
      var t := Target(defs.Keys, j);
      t.Some? ==> Resolved(defs.Keys, defs[t.value])
    else if j.List? then forall i :: 0 <= i < |j.items| ==> RefersToResolved(defs, j.items[i])
    else if j.Dict? then forall k :: k in j.fields ==> RefersToResolved(defs, j.fields[k])
    else true
  }

  lemma {:induction false} InlineResolvesExactly(defs: Defs, j: Json)
    ensures Resolved(defs.Keys, Inline(defs, j)) <==> RefersToResolved(defs, j)
  {
    var out := Inline(defs, j);
    if RefOf(j).None? {
      if j.List? {
        forall i | 0 <= i < |j.items|
          ensures Resolved(defs.Keys, out.items[i]) <==> RefersToResolved(defs, j.items[i])
        {
          InlineResolvesExactly(defs, j.items[i]);
        }
      } else if j.Dict? {
        InlineKeepsNonRefs(defs, j);
        forall k | k in j.fields
          ensures Resolved(defs.Keys, out.fields[k]) <==> RefersToResolved(defs, j.fields[k])
        {
          InlineResolvesExactly(defs, j.fields[k]);
        }
      }
    }
  }

  lemma {:induction false} AllResolvedTargets(defs: Defs, j: Json)
    requires forall k :: k in defs ==> Resolved(defs.Keys, defs[k])
    ensures RefersToResolved(defs, j)
  {
    if RefOf(j).None? {
      if j.List? {
        forall i | 0 <= i < |j.items| ensures RefersToResolved(defs, j.items[i]) {
          AllResolvedTargets(defs, j.items[i]);
        }
      } else if j.Dict? {
        forall k | k in j.fields ensures RefersToResolved(defs, j.fields[k]) {
          AllResolvedTargets(defs, j.fields[k]);
        }
      }
    }
  }

  lemma RewrittenResolvesExactly(defs: Defs, k: string)
    requires k in defs
    ensures Resolved(defs.Keys, Rewritten(defs)[k]) <==> RefersToResolved(defs, defs[k])
  {
    InlineResolvesExactly(defs, defs[k]);
  }

  lemma SecondPassResolves(defs: Defs, j: Json)
    requires forall k :: k in defs ==> RefersToResolved(defs, defs[k])
    ensures Resolved(defs.Keys, Inline(Rewritten(defs), j))
  {
    var twice := Rewritten(defs);
    forall k | k in twice ensures Resolved(twice.Keys, twice[k]) {
      RewrittenResolvesExactly(defs, k);
    }
    AllResolvedTargets(twice, j);
    InlineResolvesExactly(twice, j);
  }

  /** What `model_json_schema` computes when nothing raises. */
  function TwoPasses(defs: Defs, j: Json): Json
  {
    Inline(Rewritten(defs), j)
  }

  ghost predicate TwoPassesSuffice(defs: Defs)
  {
    forall j {:trigger TwoPasses(defs, j)} :: Resolved(defs.Keys, TwoPasses(defs, j))
  }

  /** A schema that is only a reference shows what became of its definition. */
  lemma SecondPassShowsDefinition(defs: Defs, k: string)
    requires k in defs && k != "" && TwoPassesSuffice(defs)
    ensures RefersToResolved(defs, defs[k])
  {
    var ref := Dict(map["$ref" := Str(k)]);
    assert RefOf(ref) == Some(Str(k));
    assert TwoPasses(defs, ref) == Rewritten(defs)[k];
    RewrittenResolvesExactly(defs, k);
  }

  /** Two passes are enough for every schema exactly when every definition refers to reference-free
      definitions only. */
  lemma TwoPassesSufficeExactly(defs: Defs)
    requires "" !in defs
    ensures TwoPassesSuffice(defs) <==> forall k :: k in defs ==> RefersToResolved(defs, defs[k])
  {
    if forall k :: k in defs ==> RefersToResolved(defs, defs[k]) {
      forall j ensures Resolved(defs.Keys, TwoPasses(defs, j)) {
        SecondPassResolves(defs, j);
      }
    }
    if TwoPassesSuffice(defs) {
      forall k | k in defs ensures RefersToResolved(defs, defs[k]) {
        SecondPassShowsDefinition(defs, k);
      }
    }
  }

  /** Every definition that the walk through `j` meets refers to reference-free definitions only. */
  predicate Shallow(defs: Defs, j: Json)
  {
    if RefOf(j).Some? then
      var t := Target(defs.Keys, j);
      t.Some? ==> RefersToResolved(defs, defs[t.value])
    else if j.List? then forall i :: 0 <= i < |j.items| ==> Shallow(defs, j.items[i])
    else if j.Dict? then forall k :: k in j.fields ==> Shallow(defs, j.fields[k])
    else true
  }

  lemma {:induction false} ShallowMeansRewrittenResolved(defs: Defs, j: Json)
    ensures RefersToResolved(Rewritten(defs), j) <==> Shallow(defs, j)
  {
    if RefOf(j).Some? {
      var t := Target(defs.Keys, j);
      if t.Some? { RewrittenResolvesExactly(defs, t.value); }
    } else if j.List? {
      forall i | 0 <= i < |j.items| ensures RefersToResolved(Rewritten(defs), j.items[i]) <==> Shallow(defs, j.items[i]) {
        ShallowMeansRewrittenResolved(defs, j.items[i]);
      }
    } else if j.Dict? {
      forall k | k in j.fields ensures RefersToResolved(Rewritten(defs), j.fields[k]) <==> Shallow(defs, j.fields[k]) {
        ShallowMeansRewrittenResolved(defs, j.fields[k]);
      }
    }
  }

  lemma TwoPassesResolveExactly(defs: Defs, j: Json)
    ensures Resolved(defs.Keys, TwoPasses(defs, j)) <==> Shallow(defs, j)
  {
    InlineResolvesExactly(Rewritten(defs), j);
    ShallowMeansRewrittenResolved(defs, j);
  }

  lemma ModelJsonSchemaIsTwoPasses(data: map<string, Json>)
    requires ModelJsonSchema(data).Ok?
    ensures DefsOf(data).Dict?
    ensures ModelJsonSchema(data).value == TwoPasses(Prefixed(DefsOf(data).fields), Dict(data))
  {
  }

  /** The result of `model_json_schema` has no reference left that could be resolved exactly if every
      definition that the walk through the schema meets refers to reference-free definitions only. */
  lemma ModelJsonSchemaResolvesExactly(data: map<string, Json>)
    requires ModelJsonSchema(data).Ok?
    ensures DefsOf(data).Dict?
    ensures var defs := Prefixed(DefsOf(data).fields);
            Resolved(defs.Keys, ModelJsonSchema(data).value) <==> Shallow(defs, Dict(data))
  {
    ModelJsonSchemaIsTwoPasses(data);
    TwoPassesResolveExactly(Prefixed(DefsOf(data).fields), Dict(data));
  }

  function Ref(name: string): Json
  {
    Dict(map["$ref" := Str(name)])
  }

  function Leaf(leaf: string): Json
  {
    Dict(map["type" := Str(leaf)])
  }

  /** Four definitions, each but the last a reference to the next. */
  function Chain(leaf: string): Defs
  {
    map["a" := Ref(PREFIX + "b"), "b" := Ref(PREFIX + "c"), "c" := Ref(PREFIX + "d"), "d" := Leaf(leaf)]
  }

  /** A schema that refers to the first of them. */
  function ChainSchema(leaf: string): map<string, Json>
  {
    map["$ref" := Str(PREFIX + "a"), "$defs" := Dict(Chain(leaf))]
  }

  lemma RefIsRef(name: string)
    requires name != ""
    ensures RefOf(Ref(name)) == Some(Str(name)) && !Raises(Ref(name))
  {
  }

  lemma LeafIsNoRef(leaf: string)
    ensures RefOf(Leaf(leaf)).None? && !Raises(Leaf(leaf))
  {
  }

  lemma ChainDefs(leaf: string)
    ensures GetDefs(ChainSchema(leaf)).Ok?
    ensures PREFIX + "a" in GetDefs(ChainSchema(leaf)).value
    ensures GetDefs(ChainSchema(leaf)).value[PREFIX + "a"] == Ref(PREFIX + "c")
  {
    var chain, defs := Chain(leaf), Prefixed(Chain(leaf));
    assert DefsOf(ChainSchema(leaf)) == Dict(chain);
    ChainLinks(leaf);
    RefIsRef(PREFIX + "b");
    RefIsRef(PREFIX + "c");
    RefIsRef(PREFIX + "d");
    LeafIsNoRef(leaf);
    assert Inline(defs, Ref(PREFIX + "b")) == defs[PREFIX + "b"];
  }

  lemma ChainKeys(leaf: string)
    ensures Prefixed(Chain(leaf)).Keys == {PREFIX + "a", PREFIX + "b", PREFIX + "c", PREFIX + "d"}
  {
    var chain, defs := Chain(leaf), Prefixed(Chain(leaf));
    assert chain.Keys == {"a", "b", "c", "d"};
    forall p | p in defs ensures p in {PREFIX + "a", PREFIX + "b", PREFIX + "c", PREFIX + "d"} {
      assert p == PREFIX + p[|PREFIX|..] && p[|PREFIX|..] in chain;
    }
  }

  lemma ChainLinks(leaf: string)
    ensures var defs := Prefixed(Chain(leaf));
            && PREFIX + "a" in defs && defs[PREFIX + "a"] == Ref(PREFIX + "b")
            && PREFIX + "b" in defs && defs[PREFIX + "b"] == Ref(PREFIX + "c")
            && PREFIX + "c" in defs && defs[PREFIX + "c"] == Ref(PREFIX + "d")
            && PREFIX + "d" in defs && defs[PREFIX + "d"] == Leaf(leaf)
  {
    assert "a" in Chain(leaf) && "b" in Chain(leaf) && "c" in Chain(leaf) && "d" in Chain(leaf);
  }

  function ChainRank(): map<string, nat>
  {
    map[PREFIX + "a" := 3, PREFIX + "b" := 2, PREFIX + "c" := 1, PREFIX + "d" := 0]
  }

  lemma ChainRanks()
    ensures var rank := ChainRank();
            && rank.Keys == {PREFIX + "a", PREFIX + "b", PREFIX + "c", PREFIX + "d"}
            && rank[PREFIX + "a"] == 3 && rank[PREFIX + "b"] == 2 && rank[PREFIX + "c"] == 1 && rank[PREFIX + "d"] == 0
  {
    assert (PREFIX + "a")[|PREFIX|] == 'a' && (PREFIX + "b")[|PREFIX|] == 'b';
    assert (PREFIX + "c")[|PREFIX|] == 'c' && (PREFIX + "d")[|PREFIX|] == 'd';
  }

  lemma RefBelow(rank: map<string, nat>, n: nat, name: string)
    requires name != "" && name in rank && rank[name] < n
    ensures RefsBelow(rank, n, Ref(name))
  {
    RefIsRef(name);
  }

  /** The definitions of the chain are acyclic. */
  lemma ChainIsAcyclic(leaf: string)
    ensures Ranks(Prefixed(Chain(leaf)), ChainRank())
  {
    hide Ref, ChainRank, Chain, RefsBelow;
    ChainKeys(leaf);
    ChainLinks(leaf);
    ChainRanks();
    RefBelow(ChainRank(), 3, PREFIX + "b");
    RefBelow(ChainRank(), 2, PREFIX + "c");
    RefBelow(ChainRank(), 1, PREFIX + "d");
    LeafBelow(ChainRank(), leaf);
  }

  lemma LeafBelow(rank: map<string, nat>, leaf: string)
    ensures RefsBelow(rank, 0, Leaf(leaf))
  {
    LeafIsNoRef(leaf);
  }

  /** A chain of three references is too long: the schema that refers to its head comes out as a
      reference to its third definition, which could still be resolved. */
  lemma ThreeReferencesRemain(leaf: string)
    ensures ModelJsonSchema(ChainSchema(leaf)) == Ok(Ref(PREFIX + "c"))
    ensures PREFIX + "c" in Prefixed(Chain(leaf))
    ensures !Resolved(Prefixed(Chain(leaf)).Keys, Ref(PREFIX + "c"))
  {
    var data := ChainSchema(leaf);
    ChainDefs(leaf);
    RefIsRef(PREFIX + "c");
    assert "c" in Chain(leaf);
    assert RefOf(Dict(data)) == Some(Str(PREFIX + "a"));
    assert !Raises(Dict(data));
  }

  /** The meaning itself has no reference left that could be resolved. */
  lemma {:induction false} MeaningIsResolved(defs: Defs, rank: map<string, nat>, n: nat, j: Json)
    requires Ranks(defs, rank) && RefsBelow(rank, n, j)
    ensures Resolved(defs.Keys, Expand(defs, rank, n, j))
    ensures Resolved(defs.Keys, j) ==> Expand(defs, rank, n, j) == j
    decreases n, j
  {
    var out := Expand(defs, rank, n, j);
    if RefOf(j).Some? {
      var t := Target(defs.Keys, j);
      if t.Some? { MeaningIsResolved(defs, rank, rank[t.value], defs[t.value]); }
    } else if j.List? {
      forall i | 0 <= i < |j.items|
        ensures Resolved(defs.Keys, out.items[i])
        ensures Resolved(defs.Keys, j.items[i]) ==> out.items[i] == j.items[i]
      {
        MeaningIsResolved(defs, rank, n, j.items[i]);
      }
    } else if j.Dict? {
      if "$ref" in j.fields {
        assert out.fields["$ref"] == Expand(defs, rank, n, j.fields["$ref"]);
      }
      assert RefOf(out).None?;
      forall k | k in j.fields
        ensures Resolved(defs.Keys, out.fields[k])
        ensures Resolved(defs.Keys, j.fields[k]) ==> out.fields[k] == j.fields[k]
      {
        MeaningIsResolved(defs, rank, n, j.fields[k]);
      }
    }
  }

  /** On acyclic definitions two passes keep the meaning, and are the meaning itself exactly if every
      definition that the walk meets refers to reference-free definitions only. */
  lemma TwoPassesComputeTheMeaning(defs: Defs, rank: map<string, nat>, n: nat, j: Json)
    requires Ranks(defs, rank) && RefsBelow(rank, n, j)
    ensures RefsBelow(rank, n, TwoPasses(defs, j)) && Expand(defs, rank, n, TwoPasses(defs, j)) == Expand(defs, rank, n, j)
    ensures TwoPasses(defs, j) == Expand(defs, rank, n, j) <==> Shallow(defs, j)
  {
    var twice := Rewritten(defs);
    RewritingPreservesMeaning(defs, rank, n, j);
    InliningPreservesMeaning(twice, rank, n, j);
    RewritingPreservesMeaning(defs, rank, n, Inline(twice, j));
    TwoPassesResolveExactly(defs, j);
    MeaningIsResolved(defs, rank, n, j);
    MeaningIsResolved(defs, rank, n, TwoPasses(defs, j));
  }

  /** So `model_json_schema` returns the meaning of the schema exactly under the same condition; in
      particular when all definitions refer to reference-free definitions only. */
  lemma ModelJsonSchemaIsTheMeaning(data: map<string, Json>, rank: map<string, nat>, n: nat)
    requires DefsOf(data).Dict? && ModelJsonSchema(data).Ok?
    requires Ranks(Prefixed(DefsOf(data).fields), rank) && RefsBelow(rank, n, Dict(data))
    ensures var defs := Prefixed(DefsOf(data).fields);
            && (ModelJsonSchema(data).value == Expand(defs, rank, n, Dict(data)) <==> Shallow(defs, Dict(data)))
            && ((forall k :: k in defs ==> RefersToResolved(defs, defs[k])) ==> Shallow(defs, Dict(data)))
  {
    var defs := Prefixed(DefsOf(data).fields);
    ModelJsonSchemaIsTwoPasses(data);
    TwoPassesComputeTheMeaning(defs, rank, n, Dict(data));
    if forall k :: k in defs ==> RefersToResolved(defs, defs[k]) {
      SecondPassResolves(defs, Dict(data));
      TwoPassesResolveExactly(defs, Dict(data));
    }
  }
}
