// The dashboard's editor for clause values: a comma-separated text, parsed into values and printed back.
module ClauseText {
  import opened Text

  /** How a JSON number literal reads: not at all, as a finite number, or as an overflow such as 1e999. */
  datatype NumberText = NotANumber | Finite(r: real) | Infinite(negative: bool)

  /** What the JavaScript runtime supplies: number syntax in both directions, and which characters are white space. */
  datatype Runtime = Runtime(parse: string -> NumberText, show: real -> string, space: char -> bool)

  datatype Value = Text(s: string) | Number(n: NumberText) | Boolean(b: bool)

  function TrimLeft(w: Runtime, s: string): string {
    if s != "" && w.space(s[0]) then TrimLeft(w, s[1..]) else s
  }

  function TrimRight(w: Runtime, s: string): string {
    if s != "" && w.space(s[|s| - 1]) then TrimRight(w, s[..|s| - 1]) else s
  }

  function Trim(w: Runtime, s: string): string {
    TrimRight(w, TrimLeft(w, s))
  }

  /** Numbers and booleans are read as such; everything else stays text. */
  function CoerceValue(w: Runtime, input: string): Value {
    var t := Trim(w, input);
    if t == "true" then Boolean(true)
    else if t == "false" then Boolean(false)
    else if w.parse(t) != NotANumber then Number(w.parse(t))
    else Text(t)
  }

  function CoerceAll(w: Runtime, parts: seq<string>): seq<Value> {
    if parts == [] then []
    else
      var t := Trim(w, parts[0]);
      (if t == "" then [] else [CoerceValue(w, t)]) + CoerceAll(w, parts[1..])
  }

  function ParseValues(w: Runtime, input: string): seq<Value> {
    CoerceAll(w, Split(input, ','))
  }

  /** JSON has no infinities and prints them as null. */
  function DisplayValue(w: Runtime, v: Value): string {
    match v
    case Text(s) => s
    case Boolean(b) => if b then "true" else "false"
    case Number(Finite(r)) => w.show(r)
    case Number(_) => "null"
  }

  function DisplayAll(w: Runtime, vs: seq<Value>): seq<string> {
    if vs == [] then [] else [DisplayValue(w, vs[0])] + DisplayAll(w, vs[1..])
  }

  function DisplayValues(w: Runtime, vs: seq<Value>): string {
    Join(DisplayAll(w, vs), ", ")
  }

  // ----- the runtime's part -----

  ghost predicate Trimmed(w: Runtime, s: string) {
    s != "" ==> !w.space(s[0]) && !w.space(s[|s| - 1])
  }

  /** A text that survives between commas. */
  ghost predicate Clean(w: Runtime, s: string) {
    s != "" && ',' !in s && Trimmed(w, s)
  }

  /** Number syntax is faithful: printing a number that was read gives clean text that reads as the same number. */
  ghost predicate Faithful(w: Runtime) {
    && w.space(' ') && !w.space(',')
    && (forall c :: c in "truefalsn" ==> !w.space(c))
    && w.parse("true") == w.parse("false") == w.parse("null") == NotANumber
    && (forall t, r :: w.parse(t) == Finite(r) ==> Clean(w, w.show(r)) && w.parse(w.show(r)) == Finite(r))
  }

  // ----- trimming -----

  lemma {:induction false} TrimLeftShape(w: Runtime, s: string)
    ensures var t := TrimLeft(w, s);
            (t != "" ==> !w.space(t[0])) && |t| <= |s| && t == s[|s| - |t|..]
  {
    if s != "" && w.space(s[0]) {
      TrimLeftShape(w, s[1..]);
    }
  }

  lemma {:induction false} TrimRightShape(w: Runtime, s: string)
    ensures var t := TrimRight(w, s);
            (t != "" ==> !w.space(t[|t| - 1])) && |t| <= |s| && t == s[..|t|]
  {
    if s != "" && w.space(s[|s| - 1]) {
      TrimRightShape(w, s[..|s| - 1]);
    }
  }

  lemma TrimShape(w: Runtime, s: string)
    ensures Trimmed(w, Trim(w, s))
    ensures forall c :: c in Trim(w, s) ==> c in s
    ensures Trimmed(w, s) ==> Trim(w, s) == s
  {
    TrimLeftShape(w, s);
    TrimRightShape(w, TrimLeft(w, s));
  }

  lemma TrimAfterSpace(w: Runtime, s: string)
    requires w.space(' ') && Trimmed(w, s)
    ensures Trim(w, " " + s) == s
  {
    assert (" " + s)[1..] == s;
    TrimShape(w, s);
  }

  lemma {:induction false} TrimLeftTakesSpace(w: Runtime, pad: string, s: string)
    requires (forall c :: c in pad ==> w.space(c)) && (s == "" || !w.space(s[0]))
    ensures TrimLeft(w, pad + s) == s
  {
    if pad == "" {
      assert pad + s == s;
    } else {
      assert (pad + s)[1..] == pad[1..] + s;
      TrimLeftTakesSpace(w, pad[1..], s);
    }
  }

  lemma {:induction false} TrimRightTakesSpace(w: Runtime, s: string, pad: string)
    requires (forall c :: c in pad ==> w.space(c)) && (s == "" || !w.space(s[|s| - 1]))
    ensures TrimRight(w, s + pad) == s
  {
    if pad == "" {
      assert s + pad == s;
    } else {
      assert (s + pad)[..|s + pad| - 1] == s + pad[..|pad| - 1];
      TrimRightTakesSpace(w, s, pad[..|pad| - 1]);
    }
  }

  /** Trimming takes the white space on both sides and nothing else. */
  lemma TrimMeans(w: Runtime, left: string, s: string, right: string)
    requires (forall c :: c in left ==> w.space(c)) && (forall c :: c in right ==> w.space(c))
    requires s != "" && Trimmed(w, s)
    ensures Trim(w, left + s + right) == s
  {
    assert left + s + right == left + (s + right);
    TrimLeftTakesSpace(w, left, s + right);
    TrimRightTakesSpace(w, s, right);
  }

  // ----- what is read, and what is printed -----

  /** One value with white space around it: the two literals are the booleans, a number literal is that number, and
      everything else is text. */
  lemma ReadingMeans(w: Runtime, left: string, s: string, right: string)
    requires (forall c :: c in left ==> w.space(c) && c != ',') && (forall c :: c in right ==> w.space(c) && c != ',')
    requires Clean(w, s)
    ensures ParseValues(w, left + s + right) ==
            if s == "true" then [Boolean(true)]
            else if s == "false" then [Boolean(false)]
            else if w.parse(s) == NotANumber then [Text(s)]
            else [Number(w.parse(s))]
  {
    TrimMeans(w, left, s, right);
    TrimShape(w, s);
    SplitWithoutSeparator(left + s + right, ',');
    assert [left + s + right][1..] == [];
    assert CoerceAll(w, [left + s + right]) == [CoerceValue(w, s)] + CoerceAll(w, []);
  }

  lemma {:induction false} CoerceSplits(w: Runtime, a: seq<string>, b: seq<string>)
    ensures CoerceAll(w, a + b) == CoerceAll(w, a) + CoerceAll(w, b)
  {
    if a == [] {
      assert a + b == b;
    } else {
      assert (a + b)[1..] == a[1..] + b;
      CoerceSplits(w, a[1..], b);
    }
  }

  /** What stands on either side of a comma is read on its own; where there is only white space, nothing is. */
  lemma CommasSeparate(w: Runtime, a: string, b: string)
    ensures ParseValues(w, a + "," + b) == ParseValues(w, a) + ParseValues(w, b)
    ensures (forall c :: c in a ==> w.space(c) && c != ',') ==> ParseValues(w, a) == []
  {
    assert a + "," + b == a + [','] + b;
    SplitAtSeparator(a, b, ',');
    CoerceSplits(w, Split(a, ','), Split(b, ','));
    if forall c :: c in a ==> w.space(c) && c != ',' {
      SplitWithoutSeparator(a, ',');
      assert a + "" == a;
      TrimLeftTakesSpace(w, a, "");
      assert [a][1..] == [];
    }
  }

  /** Texts are printed as they are, booleans as their literals, finite numbers as the runtime shows them and infinite
      ones as null, with a comma and a space in between. */
  lemma PrintingMeans(w: Runtime, v: Value, vs: seq<Value>)
    ensures DisplayValues(w, [v]) ==
            match v
            case Text(s) => s
            case Boolean(true) => "true"
            case Boolean(false) => "false"
            case Number(Finite(r)) => w.show(r)
            case Number(_) => "null"
    ensures vs != [] ==> DisplayValues(w, [v] + vs) == DisplayValues(w, [v]) + ", " + DisplayValues(w, vs)
  {
    assert [v][1..] == [] && ([v] + vs)[1..] == vs;
    assert DisplayAll(w, [v]) == [DisplayValue(w, v)];
    if vs != [] {
      assert DisplayAll(w, [v] + vs) == [DisplayValue(w, v)] + DisplayAll(w, vs);
      assert DisplayAll(w, [v] + vs)[1..] == DisplayAll(w, vs);
    }
  }

  // ----- printing and reading a list -----

  ghost predicate Plain(w: Runtime, v: Value) {
    match v
    case Text(s) => Clean(w, s) && s != "true" && s != "false" && w.parse(s) == NotANumber
    case Boolean(_) => true
    case Number(n) => n != NotANumber && exists t :: w.parse(t) == n
  }

  /** Survives being printed and read back. */
  ghost predicate Lasting(w: Runtime, v: Value) {
    Plain(w, v) && !(v.Number? && v.n.Infinite?)
  }

  /** What is read back from a printed value. */
  function Reread(v: Value): Value {
    if v.Number? && v.n.Infinite? then Text("null") else v
  }

  function RereadAll(vs: seq<Value>): (r: seq<Value>)
    ensures |r| == |vs| && forall i :: 0 <= i < |vs| ==> r[i] == Reread(vs[i])
  {
    seq(|vs|, i requires 0 <= i < |vs| => Reread(vs[i]))
  }

  lemma PartIsRead(w: Runtime, v: Value, lead: string, more: seq<string>)
    requires Faithful(w) && Plain(w, v) && (lead == "" || lead == " ")
    ensures ',' !in lead + DisplayValue(w, v)
    ensures CoerceAll(w, [lead + DisplayValue(w, v)] + more) == [Reread(v)] + CoerceAll(w, more)
  {
    var d := DisplayValue(w, v);
    TrimShape(w, d);
    if lead == " " {
      TrimAfterSpace(w, d);
    } else {
      assert lead + d == d;
    }
  }

  /** The list, with a space in front of each value after the first. */
  lemma {:induction false} ReadBackFrom(w: Runtime, vs: seq<Value>, lead: string)
    requires Faithful(w) && vs != [] && (forall v :: v in vs ==> Plain(w, v)) && (lead == "" || lead == " ")
    ensures CoerceAll(w, Split(lead + DisplayValues(w, vs), ',')) == RereadAll(vs)
    decreases |vs|
  {
    if |vs| == 1 {
      ReadBackLast(w, vs[0], lead);
      assert vs == [vs[0]];
    } else {
      var rest := vs[1..];
      assert forall v :: v in rest ==> v in vs;
      ReadBackFrom(w, rest, " ");
      DisplayCons(w, vs, lead);
      ReadBackFirst(w, vs[0], lead, " " + DisplayValues(w, rest));
      RereadCons(vs);
    }
  }

  lemma ReadBackLast(w: Runtime, v: Value, lead: string)
    requires Faithful(w) && Plain(w, v) && (lead == "" || lead == " ")
    ensures CoerceAll(w, Split(lead + DisplayValues(w, [v]), ',')) == RereadAll([v])
  {
    var part := lead + DisplayValue(w, v);
    assert [v][1..] == [];
    assert DisplayAll(w, [v]) == [DisplayValue(w, v)];
    PartIsRead(w, v, lead, []);
    SplitWithoutSeparator(part, ',');
    assert [part] + [] == [part];
  }

  lemma ReadBackFirst(w: Runtime, v: Value, lead: string, tail: string)
    requires Faithful(w) && Plain(w, v) && (lead == "" || lead == " ")
    ensures CoerceAll(w, Split(lead + DisplayValue(w, v) + [','] + tail, ','))
              == [Reread(v)] + CoerceAll(w, Split(tail, ','))
  {
    var part := lead + DisplayValue(w, v);
    PartIsRead(w, v, lead, Split(tail, ','));
    SplitAtSeparator(part, tail, ',');
    SplitWithoutSeparator(part, ',');
  }

  lemma RereadCons(vs: seq<Value>)
    requires vs != []
    ensures RereadAll(vs) == [Reread(vs[0])] + RereadAll(vs[1..])
  {
  }

  lemma DisplayCons(w: Runtime, vs: seq<Value>, lead: string)
    requires |vs| > 1
    ensures lead + DisplayValues(w, vs) == lead + DisplayValue(w, vs[0]) + [','] + (" " + DisplayValues(w, vs[1..]))
  {
    var parts, rest := DisplayAll(w, vs), DisplayValues(w, vs[1..]);
    assert parts[1..] == DisplayAll(w, vs[1..]) && |parts| > 1;
    assert DisplayValues(w, vs) == parts[0] + ", " + rest;
    assert ", " + rest == [','] + (" " + rest);
  }

  /** Printed values are read back as they were, except that an infinite number becomes the text null. */
  lemma ReadBack(w: Runtime, vs: seq<Value>)
    requires Faithful(w) && forall v :: v in vs ==> Plain(w, v)
    ensures ParseValues(w, DisplayValues(w, vs)) == RereadAll(vs)
  {
    if vs == [] {
      assert Split("", ',') == [""] && [""][1..] == [] && Trim(w, "") == "";
      assert CoerceAll(w, [""]) == [];
    } else {
      ReadBackFrom(w, vs, "");
      assert "" + DisplayValues(w, vs) == DisplayValues(w, vs);
    }
  }

  /** Everything read is plain. */
  lemma {:induction false} ReadValuesArePlain(w: Runtime, parts: seq<string>)
    requires forall p :: p in parts ==> ',' !in p
    ensures forall v :: v in CoerceAll(w, parts) ==> Plain(w, v)
  {
    if parts != [] {
      assert parts[0] in parts && forall p :: p in parts[1..] ==> p in parts;
      ReadValuesArePlain(w, parts[1..]);
      TrimShape(w, parts[0]);
      TrimShape(w, Trim(w, parts[0]));
    }
  }

  /** A list of values survives being printed and read back exactly when every value does: finite numbers, booleans,
      and trimmed, non-empty texts without commas that do not read as a number or a boolean. */
  lemma ListSurvivesExactly(w: Runtime, vs: seq<Value>)
    requires Faithful(w)
    ensures ParseValues(w, DisplayValues(w, vs)) == vs <==> forall v :: v in vs ==> Lasting(w, v)
  {
    var again := ParseValues(w, DisplayValues(w, vs));
    PartsHaveNoSeparator(DisplayValues(w, vs), ',');
    ReadValuesArePlain(w, Split(DisplayValues(w, vs), ','));
    if forall v :: v in vs ==> Plain(w, v) {
      ReadBack(w, vs);
      if again == vs {
        forall v | v in vs ensures Lasting(w, v) {
          var i :| 0 <= i < |vs| && vs[i] == v;
          assert Reread(vs[i]) == vs[i];
        }
      }
      if forall v :: v in vs ==> Lasting(w, v) {
        forall i | 0 <= i < |vs| ensures RereadAll(vs)[i] == vs[i] {
          assert Lasting(w, vs[i]);
        }
        assert RereadAll(vs) == vs;
      }
    }
  }

  /** Editing without a change keeps what was typed exactly when no number in it overflows. */
  lemma EditingSurvivesExactly(w: Runtime, input: string)
    requires Faithful(w)
    ensures var vs := ParseValues(w, input);
            ParseValues(w, DisplayValues(w, vs)) == vs <==> forall v :: v in vs && v.Number? ==> v.n.Finite?
  {
    PartsHaveNoSeparator(input, ',');
    ReadValuesArePlain(w, Split(input, ','));
    ListSurvivesExactly(w, ParseValues(w, input));
  }

  /** A runtime that knows two numbers, one of them too large. */
  function SmallRuntime(): Runtime {
    Runtime(
      t => if t == "1e999" then Infinite(false) else if t == "1" then Finite(1.0) else NotANumber,
      r => "1", c => c == ' ')
  }

  lemma SmallRuntimeIsFaithful()
    ensures Faithful(SmallRuntime())
  {
    var w := SmallRuntime();
    forall t, r | w.parse(t) == Finite(r) ensures Clean(w, w.show(r)) && w.parse(w.show(r)) == Finite(r) {
      assert t == "1";
    }
  }

  /** A number by itself, as it is read and as it is read back. */
  lemma OneNumberIsReread(w: Runtime, t: string)
    requires Faithful(w) && Clean(w, t) && t != "true" && t != "false" && w.parse(t) != NotANumber
    ensures ParseValues(w, t) == [Number(w.parse(t))]
    ensures ParseValues(w, DisplayValues(w, [Number(w.parse(t))])) == [Reread(Number(w.parse(t)))]
  {
    SplitWithoutSeparator(t, ',');
    TrimShape(w, t);
    assert CoerceAll(w, [t]) == [CoerceValue(w, t)] + CoerceAll(w, []);
    ReadBack(w, [Number(w.parse(t))]);
  }

  /** A number that does not overflow survives editing ... */
  lemma OneSurvives()
    ensures var w, v := SmallRuntime(), Number(Finite(1.0));
            && Faithful(w)
            && ParseValues(w, "1") == [v] == ParseValues(w, DisplayValues(w, [v]))
  {
    SmallRuntimeIsFaithful();
    OneNumberIsReread(SmallRuntime(), "1");
  }

  /** ... and one that does comes back as a text. */
  lemma OverflowIsLost()
    ensures var w, v := SmallRuntime(), Number(Infinite(false));
            && Faithful(w)
            && ParseValues(w, "1e999") == [v] && ParseValues(w, DisplayValues(w, [v])) == [Text("null")]
  {
    SmallRuntimeIsFaithful();
    OverflowingTextIsClean();
    OneNumberIsReread(SmallRuntime(), "1e999");
  }

  lemma OverflowingTextIsClean()
    ensures Clean(SmallRuntime(), "1e999") && SmallRuntime().parse("1e999") == Infinite(false)
  {
  }
}
