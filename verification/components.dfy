/** The component record of converter/component.py: its values, its
    variants with their attribute tables, the registry from type names to
    variants, and the variants the graph builder synthesises with derived
    names. */
module Components {
  import opened Results
  import opened Text
  import opened Tokenizer
  import opened Readers

  // ---------------------------------------------------------------------------
  // Values and records
  // ---------------------------------------------------------------------------

  /** An attribute or constant value. The two `BatchNorm` cases stand for
      the arrays the batch-norm adjustment computes, kept as the
      expressions they are computed from. */
  datatype Value =
    | IntV(i: int)
    | FloatV(f: Float)
    | IntVec(ints: seq<int>)
    | FloatVec(floats: seq<Float>)
    | Matrix(rows: seq<seq<Float>>)
    | BatchNormScale(targetRms: Value, statsVar: Value, epsilon: Value)  // target_rms * (stats_var + epsilon) ^ -0.5
    | BatchNormShift(scale: Value, statsMean: Value)                       // -(scale * stats_mean)

  /** The Python class a component was built as, with the fields the
      synthetic classes add. */
  datatype Kind =
    | Generic                      // Component itself
    | Input
    | Output
    | Append
    | Offset(offset: int)
    | ReplaceIndex
    | Scale(scale: string)         // the scale as Python renders it in the name
    | Splice(context: seq<int>)
    | Sum
    | Affine
    | BatchNorm
    | Tdnn

  /** A component: `type` is the node type (only `Sum` sets one), `dim` is
      unset until read or given. */
  datatype Component = Component(
    id: int,
    name: string,
    inputs: seq<string>,
    nodeType: Option<string>,
    kind: Kind,
    dim: Option<Value>,
    attrs: map<string, Value>,
    consts: map<string, Value>)

  /** `Component.__init__`: no dimension, no attributes, no constants. */
  function NewComponent(id: int, name: string, inputs: seq<string>, nodeType: Option<string>, kind: Kind): (c: Component)
    ensures c.id == id && c.name == name && c.inputs == inputs && c.nodeType == nodeType && c.kind == kind
    ensures c.dim.None? && c.attrs == map[] && c.consts == map[]
  {
    Component(id, name, inputs, nodeType, kind, None, map[], map[])
  }

  // ---------------------------------------------------------------------------
  // Attribute tables
  // ---------------------------------------------------------------------------

  /** The value readers an attribute tag can be bound to. */
  datatype Reader = IntReader | FloatReader | IntVecReader | FloatVecReader | MatrixReader

  /** One `_actions` entry: read with `reader`, store under `key`. */
  datatype Action = Action(reader: Reader, key: string)

  /** A tag as the nnet3 format writes it: `<` name `>`. */
  predicate IsTag(t: string) {
    |t| >= 3 && t[0] == '<' && t[|t| - 1] == '>'
  }

  /** The keys promoted to constants after reading, in promotion order. */
  const ConstKeys: seq<string> := ["params", "bias", "stats_mean", "stats_var"]

  /** What every `_actions` table guarantees: its tags are tags, `dim` is
      an integer, the promoted keys hold arrays, and a bias is a vector. */
  predicate WellFormedTable(table: map<string, Action>) {
    forall t | t in table :: WellFormedEntry(t, table[t])
  }

  predicate WellFormedEntry(t: string, a: Action) {
    && IsTag(t)
    && (a.key == "dim" ==> a.reader == IntReader)
    && (a.key in ConstKeys ==> a.reader in {IntVecReader, FloatVecReader, MatrixReader})
    && (a.key == "bias" ==> a.reader == FloatVecReader)
  }

  /** `Component._actions`. */
  function BaseActions(): (table: map<string, Action>)
    ensures WellFormedTable(table)
  {
    map["<Dim>" := Action(IntReader, "dim"),
        "<InputDim>" := Action(IntReader, "input_dim"),
        "<OutputDim>" := Action(IntReader, "output_dim")]
  }

  /** `AffineComponent._actions`. */
  function AffineActions(): (table: map<string, Action>)
    ensures WellFormedTable(table)
  {
    map["<Params>" := Action(MatrixReader, "params"),
        "<LinearParams>" := Action(MatrixReader, "params"),
        "<BiasParams>" := Action(FloatVecReader, "bias")]
  }

  /** `BatchNormComponent._actions`. */
  function BatchNormActions(): (table: map<string, Action>)
    ensures WellFormedTable(table)
  {
    map["<Dim>" := Action(IntReader, "dim"),
        "<Epsilon>" := Action(FloatReader, "epsilon"),
        "<TargetRms>" := Action(FloatReader, "target_rms"),
        "<StatsMean>" := Action(FloatVecReader, "stats_mean"),
        "<StatsVar>" := Action(FloatVecReader, "stats_var")]
  }

  /** `TdnnComponent._actions`. */
  function TdnnActions(): (table: map<string, Action>)
    ensures WellFormedTable(table)
  {
    map["<TimeOffsets>" := Action(IntVecReader, "time_offsets"),
        "<LinearParams>" := Action(MatrixReader, "params"),
        "<BiasParams>" := Action(FloatVecReader, "bias")]
  }

  /** `_actions()` of the class of `kind`. Classes without their own table
      inherit the one of `Component`. */
  function Actions(kind: Kind): (table: map<string, Action>)
    ensures WellFormedTable(table)
  {
    match kind
    case Affine => AffineActions()
    case BatchNorm => BatchNormActions()
    case Tdnn => TdnnActions()
    case _ => BaseActions()
  }

  /** The keys a table can write. */
  function TableKeys(table: map<string, Action>): (ks: set<string>)
    ensures forall t | t in table :: table[t].key in ks
    ensures forall k | k in ks :: exists t | t in table :: table[t].key == k
  {
    set t | t in table :: table[t].key
  }

  /** The value a reader produces has the reader's shape. */
  predicate Fits(reader: Reader, v: Value) {
    match reader
    case IntReader => v.IntV?
    case FloatReader => v.FloatV?
    case IntVecReader => v.IntVec?
    case FloatVecReader => v.FloatVec?
    case MatrixReader => v.Matrix?
  }

  /** Run one reader at the cursor. */
  function RunReader(reader: Reader, cur: Cursor): (r: Result<(Value, Cursor)>)
    ensures r.Ok? ==> Fits(reader, r.value.0) && Advanced(cur, r.value.1)
    ensures r.Ok? <==> match reader
      case IntReader => ReadInt(cur).Ok?
      case FloatReader => ReadFloat(cur).Ok?
      case IntVecReader => ReadVectorInt(cur).Ok?
      case FloatVecReader => ReadVectorFloat(cur).Ok?
      case MatrixReader => ReadMatrixTrans(cur).Ok?
    // The value and the cursor are the chosen reader's own result.
    ensures reader == IntReader && r.Ok? ==> r.value == (IntV(ReadInt(cur).value.0), ReadInt(cur).value.1)
    ensures reader == FloatReader && r.Ok? ==> r.value == (FloatV(ReadFloat(cur).value.0), ReadFloat(cur).value.1)
    ensures reader == IntVecReader && r.Ok? ==> r.value == (IntVec(ReadVectorInt(cur).value.0), ReadVectorInt(cur).value.1)
    ensures reader == FloatVecReader && r.Ok? ==> r.value == (FloatVec(ReadVectorFloat(cur).value.0), ReadVectorFloat(cur).value.1)
    ensures reader == MatrixReader && r.Ok? ==> r.value == (Matrix(ReadMatrixTrans(cur).value.0), ReadMatrixTrans(cur).value.1)
  {
    match reader
    case IntReader =>
      var (i, c) :- ReadInt(cur); Ok((IntV(i), c))
    case FloatReader =>
      var (f, c) :- ReadFloat(cur); Ok((FloatV(f), c))
    case IntVecReader =>
      var (v, c) :- ReadVectorInt(cur); Ok((IntVec(v), c))
    case FloatVecReader =>
      var (v, c) :- ReadVectorFloat(cur); Ok((FloatVec(v), c))
    case MatrixReader =>
      var (m, c) :- ReadMatrixTrans(cur); Ok((Matrix(m), c))
  }

  /** The batch-norm table reads every key its adjustment needs. */
  lemma BatchNormTableCoversAdjustment()
    ensures forall k | k in ["stats_var", "epsilon", "target_rms", "stats_mean"] :: k in TableKeys(Actions(BatchNorm))
  {
    var table := Actions(BatchNorm);
    assert table["<StatsVar>"].key == "stats_var";
    assert table["<Epsilon>"].key == "epsilon";
    assert table["<TargetRms>"].key == "target_rms";
    assert table["<StatsMean>"].key == "stats_mean";
  }

  // ---------------------------------------------------------------------------
  // Registry
  // ---------------------------------------------------------------------------

  /** The common ending of every registered type name. */
  const ComponentSuffix := "Component"

  /** `TYPE_TO_COMPONENT`: the component types the converter can read, by
      the name between the tag's angle brackets (`AffineComponent`, ...). */
  const TypeToComponent: map<string, Kind> := map[
    "GeneralDropout" + ComponentSuffix := Generic,
    "NoOp" + ComponentSuffix := Generic,
    "RectifiedLinear" + ComponentSuffix := Generic,
    "LogSoftmax" + ComponentSuffix := Generic,
    "Affine" + ComponentSuffix := Affine,
    "FixedAffine" + ComponentSuffix := Affine,
    "Linear" + ComponentSuffix := Affine,
    "NaturalGradientAffine" + ComponentSuffix := Affine,
    "BatchNorm" + ComponentSuffix := BatchNorm,
    "Tdnn" + ComponentSuffix := Tdnn]

  /** Every registered type, written as a tag, passes `read_component_type`;
      the registry only builds variants that are read from tags. */
  lemma RegistryTagsAreValid()
    ensures forall k | k in TypeToComponent :: ValidTypeTag("<" + k + ">")
    ensures forall k | k in TypeToComponent :: TypeToComponent[k] in {Generic, Affine, BatchNorm, Tdnn}
  {
    ComponentTagValid("GeneralDropout");
    ComponentTagValid("NoOp");
    ComponentTagValid("RectifiedLinear");
    ComponentTagValid("LogSoftmax");
    ComponentTagValid("Affine");
    ComponentTagValid("FixedAffine");
    ComponentTagValid("Linear");
    ComponentTagValid("NaturalGradientAffine");
    ComponentTagValid("BatchNorm");
    ComponentTagValid("Tdnn");
  }

  // ---------------------------------------------------------------------------
  // Synthetic components
  // ---------------------------------------------------------------------------

  const AppendPrefix := "append_"
  const SplicePrefix := "splice_"
  const OffsetInfix := ".offset."
  const ReplaceIndexInfix := ".ReplaceIndex."
  const ScaleInfix := ".scale."
  const SumSeparator := ".sum."

  /** `InputComponent(id, name, dim)`: no inputs, the dimension given. */
  function InputComponent(id: int, name: string, dim: int): (c: Component)
    ensures c.kind == Input && c.id == id && c.name == name && c.nodeType.None?
    ensures c.inputs == [] && c.dim == Some(IntV(dim))
    ensures c.attrs == map[] && c.consts == map[]
  {
    NewComponent(id, name, [], None, Input).(dim := Some(IntV(dim)))
  }

  /** `AppendComponent(id, inputs)`, named after its id. */
  function AppendComponent(id: int, inputs: seq<string>): (c: Component)
    ensures c.kind == Append && c.inputs == inputs && c.nodeType.None?
    ensures |c.name| > |AppendPrefix| && c.name[..|AppendPrefix|] == AppendPrefix
    ensures ParseInt(c.name[|AppendPrefix|..]) == Some(id)
  {
    ParseShowInt(id);
    NewComponent(id, AppendPrefix + ShowInt(id), inputs, None, Append)
  }

  /** `OffsetComponent(id, input, offset)`, named after its input and offset. */
  function OffsetComponent(id: int, input: string, offset: int): (c: Component)
    ensures c.kind == Offset(offset) && c.inputs == [input] && c.nodeType.None?
    ensures |c.name| > |input + OffsetInfix| && c.name[..|input + OffsetInfix|] == input + OffsetInfix
    ensures ParseInt(c.name[|input + OffsetInfix|..]) == Some(offset)
  {
    ParseShowInt(offset);
    NewComponent(id, input + OffsetInfix + ShowInt(offset), [input], None, Offset(offset))
  }

  /** `ReplaceIndexComponent(id, input, var, time)`. */
  function ReplaceIndexComponent(id: int, input: string, varName: string, timeIndex: string): (c: Component)
    ensures c.kind == ReplaceIndex && c.inputs == [input] && c.nodeType.None?
    ensures |c.name| == |input + ReplaceIndexInfix| + |varName + timeIndex|
    ensures c.name[..|input + ReplaceIndexInfix|] == input + ReplaceIndexInfix
    ensures c.name[|input + ReplaceIndexInfix|..] == varName + timeIndex
  {
    var c := NewComponent(id, input + ReplaceIndexInfix + varName + timeIndex, [input], None, ReplaceIndex);
    assert c.name == (input + ReplaceIndexInfix) + (varName + timeIndex);
    c
  }

  /** `ScaleComponent(id, input, scale)`; `scale` is the factor as Python
      renders it. */
  function ScaleComponent(id: int, input: string, scale: string): (c: Component)
    ensures c.kind == Scale(scale) && c.inputs == [input] && c.nodeType.None?
    ensures |c.name| == |input + ScaleInfix| + |scale|
    ensures c.name[..|input + ScaleInfix|] == input + ScaleInfix
    ensures c.name[|input + ScaleInfix|..] == scale
  {
    NewComponent(id, input + ScaleInfix + scale, [input], None, Scale(scale))
  }

  /** `SpliceComponent(id, inputs, context)`, named after its id. */
  function SpliceComponent(id: int, inputs: seq<string>, context: seq<int>): (c: Component)
    ensures c.kind == Splice(context) && c.inputs == inputs && c.nodeType.None?
    ensures |c.name| > |SplicePrefix| && c.name[..|SplicePrefix|] == SplicePrefix
    ensures ParseInt(c.name[|SplicePrefix|..]) == Some(id)
  {
    ParseShowInt(id);
    NewComponent(id, SplicePrefix + ShowInt(id), inputs, None, Splice(context))
  }

  /** `SumComponent(id, inputs)`: the only variant with a node type; its
      name joins the inputs with `.sum.`. */
  function SumComponent(id: int, inputs: seq<string>): (c: Component)
    ensures c.kind == Sum && c.inputs == inputs && c.nodeType == Some("Sum")
    ensures |inputs| == 0 ==> c.name == ""
    ensures |inputs| == 1 ==> c.name == inputs[0]
    ensures |inputs| >= 2 ==>
              |c.name| >= |inputs[0] + SumSeparator| && c.name[..|inputs[0] + SumSeparator|] == inputs[0] + SumSeparator
  {
    var c := NewComponent(id, Join(SumSeparator, inputs), inputs, Some("Sum"), Sum);
    assert |inputs| >= 2 ==> c.name == (inputs[0] + SumSeparator) + Join(SumSeparator, inputs[1..]);
    c
  }

  // ---------------------------------------------------------------------------
  // Names tell synthetic components apart
  // ---------------------------------------------------------------------------

  /** Two append components share a name exactly when they share an id. */
  lemma AppendNamesDistinct(a: int, b: int, inputsA: seq<string>, inputsB: seq<string>)
    ensures AppendComponent(a, inputsA).name == AppendComponent(b, inputsB).name <==> a == b
  {
    var na, nb := AppendComponent(a, inputsA).name, AppendComponent(b, inputsB).name;
    if na == nb {
      assert na[|AppendPrefix|..] == nb[|AppendPrefix|..];
    }
  }

  /** Two splice components share a name exactly when they share an id. */
  lemma SpliceNamesDistinct(a: int, b: int, inputsA: seq<string>, inputsB: seq<string>, ctxA: seq<int>, ctxB: seq<int>)
    ensures SpliceComponent(a, inputsA, ctxA).name == SpliceComponent(b, inputsB, ctxB).name <==> a == b
  {
    var na, nb := SpliceComponent(a, inputsA, ctxA).name, SpliceComponent(b, inputsB, ctxB).name;
    if na == nb {
      assert na[|SplicePrefix|..] == nb[|SplicePrefix|..];
    }
  }

  /** An append component is never named like a splice component. */
  lemma AppendIsNotSplice(a: int, b: int, inputsA: seq<string>, inputsB: seq<string>, ctx: seq<int>)
    ensures AppendComponent(a, inputsA).name != SpliceComponent(b, inputsB, ctx).name
  {
    assert AppendComponent(a, inputsA).name[0] == 'a';
    assert SpliceComponent(b, inputsB, ctx).name[0] == 's';
  }

  /** Offsets of one input by different amounts get different names. */
  lemma OffsetNamesDistinct(id1: int, id2: int, input: string, d1: int, d2: int)
    ensures OffsetComponent(id1, input, d1).name == OffsetComponent(id2, input, d2).name <==> d1 == d2
  {
    var n1, n2 := OffsetComponent(id1, input, d1).name, OffsetComponent(id2, input, d2).name;
    var k := |input + OffsetInfix|;
    if n1 == n2 {
      assert n1[k..] == n2[k..];
    }
  }

  /** Scales of one input by differently written factors get different names. */
  lemma ScaleNamesDistinct(id1: int, id2: int, input: string, s1: string, s2: string)
    ensures ScaleComponent(id1, input, s1).name == ScaleComponent(id2, input, s2).name <==> s1 == s2
  {
    var n1, n2 := ScaleComponent(id1, input, s1).name, ScaleComponent(id2, input, s2).name;
    var k := |input + ScaleInfix|;
    if n1 == n2 {
      assert n1[k..] == n2[k..];
    }
  }

  /** A sum of `[a, b]` is named `a.sum.b`, and summing one more input
      extends the name of the shorter sum. */
  lemma SumNames(id: int, a: string, b: string, inputs: seq<string>, last: string)
    ensures SumComponent(id, [a, b]).name == a + ".sum." + b
    ensures |inputs| > 0 ==> SumComponent(id, inputs + [last]).name == SumComponent(id, inputs).name + ".sum." + last
  {
    assert [a, b][1..] == [b];
    assert Join(SumSeparator, [a, b]) == a + SumSeparator + Join(SumSeparator, [b]);
    if |inputs| > 0 {
      JoinSnoc(SumSeparator, inputs, last);
    }
  }
}
