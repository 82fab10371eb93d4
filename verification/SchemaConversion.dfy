/**
 Converting tool parameter schemas (`prepareToolsForLLM` and its helpers). The conversion
 writes types into the caller's own schema objects, which may be shared between tools and
 positions, and the tool loop repeats it before every model call.
 */
module SchemaConversion {
  import opened Common

  /** A `type` entry: missing or empty, a text, or a value that is not a text. */
  datatype TypeTag = Missing | Named(name: string) | Other

  /** `toUpperCase`, as far as it can produce one of the type names: the ASCII letters and the
      four other characters whose upper case is made of those letters. */
  function Upper(c: char): string {
    if 'a' <= c <= 'z' then [(c as int - 32) as char]
    else if c == '\U{0131}' then "I"
    else if c == '\U{017F}' then "S"
    else if c == '\U{FB05}' || c == '\U{FB06}' then "ST"
    else [c]
  }

  function UpperCase(s: string): string {
    if s == "" then "" else Upper(s[0]) + UpperCase(s[1..])
  }

  function KnownTypes(): set<string> {
    {"STRING", "NUMBER", "BOOLEAN", "OBJECT", "ARRAY", "NULL"}
  }

  /** `convertTypeToSchemaType`, where the callers' test for a missing type is included. */
  function Convert(t: TypeTag): TypeTag {
    match t
    case Missing => Missing
    case Other => Named("ANY")
    case Named(s) => if UpperCase(s) in KnownTypes() then Named(UpperCase(s)) else Named("ANY")
  }

  lemma {:induction false} UpperCaseTwice(s: string)
    ensures UpperCase(UpperCase(s)) == UpperCase(s)
  {
    if s != "" {
      UpperCaseTwice(s[1..]);
      UpperCaseJoins(Upper(s[0]), UpperCase(s[1..]));
      UpperTwice(s[0]);
    }
  }

  lemma {:induction false} UpperCaseJoins(a: string, b: string)
    ensures UpperCase(a + b) == UpperCase(a) + UpperCase(b)
  {
    if a == "" {
      assert a + b == b;
    } else {
      UpperCaseJoins(a[1..], b);
      assert (a + b)[1..] == a[1..] + b;
      Associate(Upper(a[0]), UpperCase(a[1..]), UpperCase(b));
    }
  }

  lemma UpperTwice(c: char)
    ensures UpperCase(Upper(c)) == Upper(c)
  {
    var u := Upper(c);
    if |u| == 1 {
      assert u[1..] == "";
      assert Upper(u[0]) == [u[0]];
    } else {
      var t := ['T'];
      assert u == ['S', 'T'] && u[1..] == t && t[1..] == "";
      assert UpperCase(t) == Upper('T') + "" == t;
      assert UpperCase(u) == Upper('S') + t;
    }
  }

  /** Converting a converted type changes nothing. */
  lemma ConvertIdempotent(t: TypeTag)
    ensures Convert(Convert(t)) == Convert(t)
  {
    match t
    case Named(s) =>
      UpperCaseTwice(s);
    case _ =>
  }

  /** `s` is the name `n` with each letter in either case. */
  ghost predicate IsCasingOf(s: string, n: string) {
    |s| == |n| && forall i :: 0 <= i < |n| ==> s[i] == n[i] || s[i] as int == n[i] as int + 32
  }

  lemma {:induction false} UpperCaseOfAscii(s: string)
    requires forall c :: c in s ==> c as int < 128
    ensures |UpperCase(s)| == |s|
    ensures forall i :: 0 <= i < |s| ==>
      UpperCase(s)[i] == if 'a' <= s[i] <= 'z' then (s[i] as int - 32) as char else s[i]
  {
    if s != "" {
      assert s[0] in s && forall c :: c in s[1..] ==> c in s;
      UpperCaseOfAscii(s[1..]);
      var first, rest := Upper(s[0]), UpperCase(s[1..]);
      assert |first| == 1 && UpperCase(s) == first + rest;
      forall i | 0 <= i < |s| ensures UpperCase(s)[i] == if 'a' <= s[i] <= 'z' then (s[i] as int - 32) as char else s[i] {
        if i > 0 {
          assert UpperCase(s)[i] == rest[i - 1] && s[i] == s[1..][i - 1];
        }
      }
    }
  }

  predicate Letters(n: string) {
    forall c :: c in n ==> 'A' <= c <= 'Z'
  }

  lemma AsciiCasing(s: string, n: string)
    requires forall c :: c in s ==> c as int < 128
    requires Letters(n)
    ensures UpperCase(s) == n <==> IsCasingOf(s, n)
  {
    UpperCaseOfAscii(s);
    forall i | 0 <= i < |n| ensures 'A' <= n[i] <= 'Z' {
      assert n[i] in n;
    }
    forall i | 0 <= i < |s| ensures s[i] as int < 128 {
      assert s[i] in s;
    }
    if UpperCase(s) == n {
      assert forall i :: 0 <= i < |n| ==> UpperCase(s)[i] == n[i];
    }
  }

  lemma TypeNameLetters(n: string)
    requires n in ["STRING", "NUMBER", "BOOLEAN", "OBJECT", "ARRAY", "NULL"]
    ensures Letters(n)
  {
    assert Letters("STRING") && Letters("NUMBER") && Letters("BOOLEAN");
    assert Letters("OBJECT") && Letters("ARRAY") && Letters("NULL");
  }

  /** A type text becomes a type name exactly when it is that name in any casing, and "ANY" when it
      is none of them; a missing type stays missing, and any other value becomes "ANY". */
  lemma ConvertNames(s: string)
    requires forall c :: c in s ==> c as int < 128
    ensures forall n :: n in ["STRING", "NUMBER", "BOOLEAN", "OBJECT", "ARRAY", "NULL"] ==>
      (Convert(Named(s)) == Named(n) <==> IsCasingOf(s, n))
    ensures (forall n :: n in ["STRING", "NUMBER", "BOOLEAN", "OBJECT", "ARRAY", "NULL"] ==> !IsCasingOf(s, n)) <==>
      Convert(Named(s)) == Named("ANY")
    ensures Convert(Missing) == Missing && Convert(Other) == Named("ANY")
  {
    forall n | n in ["STRING", "NUMBER", "BOOLEAN", "OBJECT", "ARRAY", "NULL"]
      ensures UpperCase(s) == n <==> IsCasingOf(s, n)
    {
      TypeNameLetters(n);
      AsciiCasing(s, n);
    }
    assert UpperCase(s) in KnownTypes() <==> UpperCase(s) in ["STRING", "NUMBER", "BOOLEAN", "OBJECT", "ARRAY", "NULL"];
    assert "ANY" !in ["STRING", "NUMBER", "BOOLEAN", "OBJECT", "ARRAY", "NULL"];
  }

  /** Four characters outside ASCII become capital letters of a type name. */
  lemma ConvertSpecialLetters(i: char, s: char, st: char)
    requires i == '\U{0131}' && s == '\U{017F}' && (st == '\U{FB05}' || st == '\U{FB06}')
    ensures UpperCase([i]) == "I" && UpperCase([s]) == "S" && UpperCase([st]) == "ST"
    ensures Convert(Named([st] + ("r" + ([i] + "ng")))) == Named("STRING")
  {
    assert [i][1..] == "" && [s][1..] == "" && [st][1..] == "";
    UpperCaseJoins([st], "r" + ([i] + "ng"));
    UpperCaseJoins("r", [i] + "ng");
    UpperCaseJoins([i], "ng");
    UpperCaseOfAscii("r");
    UpperCaseOfAscii("ng");
    assert UpperCase("r") == "R" && UpperCase("ng") == "NG";
    assert "ST" + ("R" + ("I" + "NG")) == "STRING";
  }

  // ---------- schema objects ----------

  /** A property object. Only `ty` is ever written: `properties` is replaced by a copy with the
      same entries, which for a map value is no change. `height` bounds the nesting. */
  class Prop {
    var ty: TypeTag
    const properties: map<string, Prop>
    const items: Prop?
    ghost const height: nat

    constructor (ty: TypeTag, properties: map<string, Prop>, items: Prop?, ghost height: nat)
      ensures this.ty == ty && this.properties == properties && this.items == items && this.height == height
    {
      this.ty := ty;
      this.properties := properties;
      this.items := items;
      this.height := height;
    }
  }

  /** Nested properties have smaller heights, so the nesting is finite; sharing is allowed. */
  ghost predicate Nested(p: Prop)
    decreases p.height
  {
    forall k :: k in p.properties ==> p.properties[k].height < p.height && Nested(p.properties[k])
  }

  ghost predicate AllNested(props: map<string, Prop>) {
    forall k :: k in props ==> Nested(props[k])
  }

  /** The objects whose type the conversion of `p` writes: itself, its item object, and those of
      its nested properties; properties of an item object are left alone. */
  ghost function Written(p: Prop): set<Prop>
    requires Nested(p)
    decreases p.height, 1
  {
    {p} + (if p.items != null then {p.items} else {})
    + set k, q | k in p.properties && q in Written(p.properties[k]) :: q
  }

  ghost function WrittenAll(props: map<string, Prop>): set<Prop>
    requires AllNested(props)
  {
    set k, q | k in props && q in Written(props[k]) :: q
  }

  /** The property reached by a path of names, if there is one. */
  ghost function Follow(p: Prop, path: seq<string>): Prop? {
    if path == [] then p
    else if path[0] in p.properties then Follow(p.properties[path[0]], path[1..])
    else null
  }

  /** `q` is a property reached from `p` by names, or the item object of one. */
  ghost predicate ReachedBy(p: Prop, path: seq<string>, q: Prop) {
    var r := Follow(p, path);
    r != null && (q == r || q == r.items)
  }

  /** The conversion writes exactly what can be reached by names, and item objects there; nothing
      below an item object. */
  lemma {:induction false} WrittenIff(p: Prop, q: Prop)
    requires Nested(p)
    ensures q in Written(p) <==> exists path :: ReachedBy(p, path, q)
    decreases p.height
  {
    forall k | k in p.properties
      ensures q in Written(p.properties[k]) <==> exists path :: ReachedBy(p.properties[k], path, q)
    {
      WrittenIff(p.properties[k], q);
    }
    if q in Written(p) {
      if q == p || q == p.items {
        assert ReachedBy(p, [], q);
      } else {
        var k :| k in p.properties && q in Written(p.properties[k]);
        var path :| ReachedBy(p.properties[k], path, q);
        assert ([k] + path)[1..] == path;
        assert ReachedBy(p, [k] + path, q);
      }
    }
    if path :| ReachedBy(p, path, q) {
      if path != [] {
        assert ReachedBy(p.properties[path[0]], path[1..], q);
      }
    }
  }

  /** The types of a set of objects. */
  ghost function Types(universe: set<Prop>): map<Prop, TypeTag>
    reads universe
  {
    map q | q in universe :: q.ty
  }

  /** Those types after converting exactly the objects of `w`. */
  ghost function Apply(w: set<Prop>, types: map<Prop, TypeTag>): map<Prop, TypeTag> {
    map q | q in types :: if q in w then Convert(types[q]) else types[q]
  }

  /** Converting one set and then another converts their union, overlaps included. */
  lemma ApplyTwice(v: set<Prop>, w: set<Prop>, types: map<Prop, TypeTag>)
    ensures Apply(w, Apply(v, types)) == Apply(v + w, types)
  {
    forall q | q in types ensures Apply(w, Apply(v, types))[q] == Apply(v + w, types)[q] {
      ConvertIdempotent(types[q]);
    }
  }

  /** The assignment `prop.type = convertTypeToSchemaType(prop.type)`. */
  method ConvertOwnType(p: Prop, ghost universe: set<Prop>)
    requires p in universe
    modifies p`ty
    ensures Types(universe) == Apply({p}, old(Types(universe)))
  {
    p.ty := Convert(p.ty);
  }

  /** One property: its own type, its nested properties, its item type. */
  method ConvertProp(p: Prop, ghost universe: set<Prop>)
    requires Nested(p) && Written(p) <= universe
    modifies universe`ty
    ensures Types(universe) == Apply(Written(p), old(Types(universe)))
    decreases p.height, 1
  {
    ghost var types, nested := Types(universe), WrittenAll(p.properties);
    WrittenSplits(p);
    ConvertOwnType(p, universe);
    ConvertNestedProperties(p.properties, p.height, universe);
    ApplyTwice({p}, nested, types);
    if p.items != null {
      ConvertOwnType(p.items, universe);
      ApplyTwice({p} + nested, {p.items}, types);
    }
  }

  lemma WrittenSplits(p: Prop)
    requires Nested(p)
    ensures Written(p) == {p} + WrittenAll(p.properties) + if p.items != null then {p.items} else {}
  {}

  /** `convertNestedProperties`: every entry, in whatever order. */
  method ConvertNestedProperties(props: map<string, Prop>, ghost bound: nat, ghost universe: set<Prop>)
    requires AllNested(props) && (forall k :: k in props ==> props[k].height < bound)
    requires WrittenAll(props) <= universe
    modifies universe`ty
    ensures Types(universe) == Apply(WrittenAll(props), old(Types(universe)))
    decreases bound, 0
  {
    ghost var types := Types(universe);
    var todo := props.Keys;
    assert props - todo == map[];
    assert Apply(WrittenAll(props - todo), types) == types;
    while todo != {}
      invariant todo <= props.Keys
      invariant Types(universe) == Apply(WrittenAll(props - todo), types)
    {
      var k :| k in todo;
      WrittenOneMore(props, todo, k);
      ConvertProp(props[k], universe);
      ApplyTwice(WrittenAll(props - todo), Written(props[k]), types);
      todo := todo - {k};
    }
    assert props - todo == props;
  }

  lemma WrittenOneMore(props: map<string, Prop>, todo: set<string>, k: string)
    requires AllNested(props) && k in todo && todo <= props.Keys
    ensures Written(props[k]) <= WrittenAll(props)
    ensures WrittenAll(props - (todo - {k})) == WrittenAll(props - todo) + Written(props[k])
  {
    var fewer, more := props - todo, props - (todo - {k});
    assert more == fewer[k := props[k]];
    assert forall j :: j in fewer ==> j in more && more[j] == fewer[j];
    assert k in more && more[k] == props[k] && k in props;
  }

  // ---------- tools ----------

  datatype Parameters = Parameters(ty: TypeTag, properties: map<string, Prop>)
  datatype Tool = Tool(name: string, description: string, parameters: Option<Parameters>)

  ghost predicate ToolNested(t: Tool) {
    t.parameters.Some? ==> AllNested(t.parameters.value.properties)
  }

  ghost function ToolWrites(t: Tool): set<Prop>
    requires ToolNested(t)
  {
    if t.parameters.Some? then WrittenAll(t.parameters.value.properties) else {}
  }

  ghost function ToolsWrite(ts: seq<Tool>): set<Prop>
    requires forall t :: t in ts ==> ToolNested(t)
  {
    set t, q | t in ts && q in ToolWrites(t) :: q
  }

  /** What the model is given for a tool: the top-level type is converted on a copy, the property
      objects are the tool's own. */
  function Declaration(t: Tool): Tool {
    if t.parameters.Some? then
      t.(parameters := Some(t.parameters.value.(ty := Convert(t.parameters.value.ty))))
    else t
  }

  /** The same name, description and property objects, with the top-level type converted. */
  ghost predicate IsDeclaration(t: Tool, d: Tool) {
    && d.name == t.name && d.description == t.description
    && (d.parameters.Some? <==> t.parameters.Some?)
    && (t.parameters.Some? ==>
          && d.parameters.value.properties == t.parameters.value.properties
          && d.parameters.value.ty == Convert(t.parameters.value.ty))
  }

  function Declarations(ts: seq<Tool>): (ds: seq<Tool>)
    ensures |ds| == |ts| && forall i :: 0 <= i < |ts| ==> ds[i] == Declaration(ts[i])
  {
    seq(|ts|, i requires 0 <= i < |ts| => Declaration(ts[i]))
  }

  ghost function HeightBound(props: map<string, Prop>): (b: nat)
    ensures forall k :: k in props ==> props[k].height < b
  {
    if props == map[] then 0
    else
      var k :| k in props;
      var rest := props - {k};
      var b := HeightBound(rest);
      assert forall j :: j in props && j != k ==> j in rest && rest[j] == props[j];
      if props[k].height < b then b else props[k].height + 1
  }

  /** `convertParametersToGeminiFormat` on one tool. */
  method PrepareTool(t: Tool, ghost universe: set<Prop>) returns (d: Tool)
    requires ToolNested(t) && ToolWrites(t) <= universe
    modifies universe`ty
    ensures d == Declaration(t) && IsDeclaration(t, d)
    ensures Types(universe) == Apply(ToolWrites(t), old(Types(universe)))
  {
    d := t;
    if t.parameters.Some? {
      d := Declaration(t);
      ConvertNestedProperties(t.parameters.value.properties, HeightBound(t.parameters.value.properties), universe);
    } else {
      assert Types(universe) == Apply({}, Types(universe));
    }
  }

  lemma ToolsWriteSplits(ts: seq<Tool>, i: nat)
    requires (forall t :: t in ts ==> ToolNested(t)) && i < |ts|
    ensures ToolWrites(ts[i]) <= ToolsWrite(ts)
    ensures ToolsWrite(ts[..i + 1]) == ToolsWrite(ts[..i]) + ToolWrites(ts[i])
  {
    assert ts[i] in ts;
    assert ts[..i + 1] == ts[..i] + [ts[i]];
  }

  /** `prepareToolsForLLM`, function declarations only: the declarations in order, and every
      schema object that any tool reaches converted once. */
  method PrepareTools(tools: seq<Tool>, ghost universe: set<Prop>) returns (declarations: seq<Tool>)
    requires (forall t :: t in tools ==> ToolNested(t)) && ToolsWrite(tools) <= universe
    modifies universe`ty
    ensures declarations == Declarations(tools)
    ensures |declarations| == |tools| && forall i :: 0 <= i < |tools| ==> IsDeclaration(tools[i], declarations[i])
    ensures Types(universe) == Apply(ToolsWrite(tools), old(Types(universe)))
  {
    ghost var types := Types(universe);
    declarations := [];
    assert Apply(ToolsWrite(tools[..0]), types) == types;
    for i := 0 to |tools|
      invariant declarations == Declarations(tools)[..i]
      invariant Types(universe) == Apply(ToolsWrite(tools[..i]), types)
    {
      ToolsWriteSplits(tools, i);
      assert tools[i] in tools;
      var d := PrepareTool(tools[i], universe);
      ApplyTwice(ToolsWrite(tools[..i]), ToolWrites(tools[i]), types);
      declarations := declarations + [d];
    }
    assert tools[..|tools|] == tools;
  }

  /** What the model call is given: declarations when there are tools, web search when it is
      enabled and there are none. */
  datatype ToolConfig = ToolConfig(declarations: Option<seq<Tool>>, googleSearch: bool)

  /** `prepareToolsForLLM`: an agent with tools never gets the search, and one without tools
      leaves every schema object alone. */
  method PrepareToolsForLLM(tools: seq<Tool>, enableGoogleSearch: bool, ghost universe: set<Prop>) returns (config: ToolConfig)
    requires (forall t :: t in tools ==> ToolNested(t)) && ToolsWrite(tools) <= universe
    modifies universe`ty
    ensures config.declarations == if tools != [] then Some(Declarations(tools)) else None
    ensures config.googleSearch <==> enableGoogleSearch && tools == []
    ensures Types(universe) == Apply(ToolsWrite(tools), old(Types(universe)))
  {
    ghost var types := Types(universe);
    var disableSearch := tools != [] && enableGoogleSearch;
    config := ToolConfig(None, false);
    if tools != [] {
      var declarations := PrepareTools(tools, universe);
      config := config.(declarations := Some(declarations));
      if disableSearch {
        return;
      }
    } else {
      assert ToolsWrite(tools) == {} && Apply({}, types) == types;
    }
    if enableGoogleSearch && !disableSearch {
      config := config.(googleSearch := true);
    }
  }

  /** The tool loop prepares the tools before each model call: every round hands over equal
      declarations, and the schema objects they refer to hold equal types at every hand-over. */
  method PrepareEachRound(tools: seq<Tool>, rounds: nat, ghost universe: set<Prop>)
    returns (given: seq<seq<Tool>>, ghost seen: seq<map<Prop, TypeTag>>)
    requires (forall t :: t in tools ==> ToolNested(t)) && ToolsWrite(tools) <= universe
    modifies universe`ty
    ensures |given| == rounds + 1 && forall r :: 0 <= r <= rounds ==> given[r] == Declarations(tools)
    ensures |seen| == rounds + 1
    ensures forall r :: 0 <= r <= rounds ==> seen[r] == Apply(ToolsWrite(tools), old(Types(universe)))
    ensures Types(universe) == Apply(ToolsWrite(tools), old(Types(universe)))
  {
    ghost var types, w := Types(universe), ToolsWrite(tools);
    var first := PrepareTools(tools, universe);
    given, seen := [first], [Types(universe)];
    for r := 0 to rounds
      invariant |given| == r + 1 && forall k :: 0 <= k <= r ==> given[k] == Declarations(tools)
      invariant |seen| == r + 1 && forall k :: 0 <= k <= r ==> seen[k] == Apply(w, types)
      invariant Types(universe) == Apply(w, types)
    {
      var again := PrepareTools(tools, universe);
      ApplyTwice(w, w, types);
      assert w + w == w;
      given, seen := given + [again], seen + [Types(universe)];
    }
  }
}
