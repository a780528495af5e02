// The domain types shared by the evaluation engine and the instruction editor.
module Models {
  import opened Text

  datatype Option<+T> = None | Some(value: T)

  /** A decoded JSON value. Numbers are exact reals. */
  datatype Value =
    | Null
    | Bool(b: bool)
    | Num(r: real)
    | Str(s: string)
    | Arr(elems: seq<Value>)
    | Obj(fields: map<string, Value>)

  /** The largest 60-bit number: fifteen hexadecimal digits f. */
  const LONG_SCALE: nat := 0xFFF_FFFF_FFFF_FFFF

  /** The first fifteen hexadecimal digits of a digest, as a number. */
  type Hash60 = n: nat | n <= LONG_SCALE

  /** What the engine takes as given: the hash of a text and the outcome of one operator on one pair of values. */
  datatype World = World(hash: string -> Hash60, opMatch: (string, Value, Value) -> bool)

  const OP_SEGMENT_MATCH := "segmentMatch"

  datatype Clause = Clause(contextKind: string, attribute: string, op: string, values: seq<Value>, negate: bool)

  datatype WeightedVariation = WeightedVariation(variation: int, weight: int)

  datatype Rollout = Rollout(variations: seq<WeightedVariation>, bucketBy: string, contextKind: string,
      seed: Option<int>)

  datatype VariationOrRollout = VariationOrRollout(variation: Option<int>, rollout: Option<Rollout>)

  datatype Rule = Rule(id: string, clauses: seq<Clause>, serve: VariationOrRollout)

  datatype Target = Target(contextKind: string, values: seq<string>, variation: int)

  datatype Prerequisite = Prerequisite(key: string, variation: int)

  datatype SegmentTarget = SegmentTarget(contextKind: string, values: seq<string>)

  datatype SegmentRule = SegmentRule(clauses: seq<Clause>, weight: Option<int>, bucketBy: string,
      rolloutContextKind: string)

  datatype Segment = Segment(
    key: string, salt: string,
    included: seq<string>, excluded: seq<string>,
    includedContexts: seq<SegmentTarget>, excludedContexts: seq<SegmentTarget>,
    rules: seq<SegmentRule>)

  datatype EvalFlag = EvalFlag(
    key: string, salt: string, clientSideAvailable: bool, variations: seq<Value>,
    on: bool, offVariation: int, prerequisites: seq<Prerequisite>,
    targets: seq<Target>, rules: seq<Rule>, fallthru: VariationOrRollout)

  /** A flag's targeting in one environment, as stored and edited. */
  datatype Config = Config(
    on: bool, offVariation: int, prerequisites: seq<Prerequisite>,
    targets: seq<Target>, rules: seq<Rule>, fallthru: VariationOrRollout)

  /** The unit cached per environment. */
  datatype EvalEnv = EvalEnv(flags: map<string, EvalFlag>, segments: map<string, Segment>)

  datatype SingleContext = SingleContext(key: string, attributes: map<string, Value>)

  datatype Context = Context(single: map<string, SingleContext>)

  function DefaultKind(kind: string): string {
    if kind == "" then "user" else kind
  }

  function KeyForKind(c: Context, kind: string): Option<string> {
    var k := DefaultKind(kind);
    if k in c.single then Some(c.single[k].key) else None
  }

  /** The value at the end of a path of field names, if every step is an object that has the field. */
  function Descend(v: Value, path: seq<string>): Option<Value> {
    if path == [] then Some(v)
    else if v.Obj? && path[0] in v.fields then Descend(v.fields[path[0]], path[1..])
    else None
  }

  function PathOf(ref: string): seq<string> {
    Split(TrimPrefix(ref, "/"), '/')
  }

  function ValueForRef(c: Context, kind: string, ref: string): Option<Value> {
    var k := DefaultKind(kind);
    if k !in c.single then None
    else if ref == "key" then Some(Str(c.single[k].key))
    else if ref == "kind" then Some(Str(k))
    else if HasPrefix(ref, "/") then Descend(Obj(c.single[k].attributes), PathOf(ref))
    else if ref in c.single[k].attributes then Some(c.single[k].attributes[ref])
    else None
  }

  /** What a reference without a leading slash means in a context that has the kind: "key" and "kind" are reserved, any
      other is the name of an attribute. The kind "" is "user". */
  lemma PlainReferenceMeans(c: Context, kind: string, ref: string)
    requires ref == "" || ref[0] != '/'
    ensures var k := if kind == "" then "user" else kind;
            ValueForRef(c, kind, ref) ==
              if k !in c.single then None
              else if ref == "key" then Some(Str(c.single[k].key))
              else if ref == "kind" then Some(Str(k))
              else if ref in c.single[k].attributes then Some(c.single[k].attributes[ref])
              else None
  {
  }

  /** The field of an object, if it is one and has it. */
  function FieldOf(v: Option<Value>, name: string): Option<Value> {
    match v
    case Some(Obj(fields)) => if name in fields then Some(fields[name]) else None
    case _ => None
  }

  lemma {:induction false} DescendOneMore(v: Value, path: seq<string>, name: string)
    ensures Descend(v, path + [name]) == FieldOf(Descend(v, path), name)
  {
    if path == [] {
      assert (path + [name])[1..] == [];
    } else {
      assert (path + [name])[1..] == path[1..] + [name];
      if v.Obj? && path[0] in v.fields {
        DescendOneMore(v.fields[path[0]], path[1..], name);
      }
    }
  }

  lemma SlashDescends(c: Context, kind: string, path: string)
    requires DefaultKind(kind) in c.single
    ensures ValueForRef(c, kind, "/" + path) == Descend(Obj(c.single[DefaultKind(kind)].attributes), Split(path, '/'))
  {
    var ref := "/" + path;
    assert ref[0] == '/' && ref[1..] == path;
    assert ref != "key" && ref != "kind" && PathOf(ref) == Split(path, '/');
  }

  /** What a reference with a leading slash means: "/a" is attribute a, and "/p/b" is field b of what "/p" refers to. */
  lemma PathReferenceMeans(c: Context, kind: string, path: string, name: string)
    requires '/' !in name
    ensures var k := if kind == "" then "user" else kind;
            ValueForRef(c, kind, "/" + name) ==
              if k in c.single && name in c.single[k].attributes then Some(c.single[k].attributes[name]) else None
    ensures ValueForRef(c, kind, "/" + (path + "/" + name)) == FieldOf(ValueForRef(c, kind, "/" + path), name)
  {
    if DefaultKind(kind) in c.single {
      var attributes := Obj(c.single[DefaultKind(kind)].attributes);
      SlashDescends(c, kind, name);
      SlashDescends(c, kind, path);
      SlashDescends(c, kind, path + "/" + name);
      SplitWithoutSeparator(name, '/');
      SplitAtSeparator(path, name, '/');
      assert path + "/" + name == path + ['/'] + name;
      DescendOneMore(attributes, [], name);
      DescendOneMore(attributes, Split(path, '/'), name);
      assert [] + [name] == [name];
    }
  }

  /** Walks a nested attribute reference step by step. */
  method ResolvePath(attrs: map<string, Value>, ref: string) returns (r: Option<Value>)
    ensures r == Descend(Obj(attrs), PathOf(ref))
  {
    var parts := PathOf(ref);
    var cur := Obj(attrs);
    for i := 0 to |parts|
      invariant Descend(cur, parts[i..]) == Descend(Obj(attrs), parts)
    {
      if !cur.Obj? || parts[i] !in cur.fields {
        return None;
      }
      cur := cur.fields[parts[i]];
    }
    r := Some(cur);
  }
}
