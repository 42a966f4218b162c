/**
 * The values of a notice and where they came from: `update_fields` of
 * app/services/fnol/service.py, `apply` of app/services/fnol/extraction.py and
 * `upsert_field` of app/repositories/fnol.py.
 */
module FieldStore {
  import opened Wrappers

  /**
   * A typed editable path, by its place in the order in which one extraction records
   * them: the five reporter details, the policy number, the insured's name and
   * organisation, the policy type, the six loss facts, the two casualty counts, the two
   * amounts and the three references.
   */
  type Path = i: nat | i < 22

  const ReporterOrganisation: Path := 1
  const ReporterEmail: Path := 3
  const PolicyNumber: Path := 5
  const InsuredName: Path := 6
  const InsuredOrganisation: Path := 7
  const DateOfLoss: Path := 9
  const LossLocation: Path := 10
  const LossDescription: Path := 12
  const AffectedAssets: Path := 14
  const EstimatedLoss: Path := 17
  const PATH_COUNT: nat := 22

  datatype Flag = BusinessInterruption | StructuralDamage | EnvironmentalExposure | PotentialLitigation

  const FLAGS: seq<Flag> := [BusinessInterruption, StructuralDamage, EnvironmentalExposure, PotentialLitigation]

  /** A stored value: text, or a moment, count or amount as a number. */
  datatype Value = Text(text: string) | Number(number: int)

  datatype Source = FromAi | FromHuman | FromChannel

  datatype Row = Row(
    valueText: Option<string>, confidence: Option<real>, source: Source, evidence: Option<string>,
    humanModified: bool, originalValue: Option<string>, modifiedBy: Option<string>, reason: Option<string>)

  /** One field as a model read it, with the value its parser vouched for. */
  datatype Reading = Reading(
    value: Option<string>, confidence: Option<real>, evidence: Option<string>, parsed: Option<Value>)

  datatype Extraction = Extraction(
    readings: map<Path, Reading>, flags: map<Flag, bool>, currency: Option<string>)
  {
    function Of(p: Path): Reading {
      if p in readings then readings[p] else Reading(None, None, None, None)
    }
  }

  /** An officer's input once coerced, or its refusal. */
  datatype Update =
    | Typed(path: Path, parsed: Option<Value>, display: Option<string>)
    | Toggle(flag: Flag, on: bool)
    | Refused

  datatype Fields = Fields(
    rows: map<Path, Row>, values: map<Path, Value>, flags: map<Flag, bool>, currency: string)
  {
    function Get(p: Path): Option<Value> { if p in values then Some(values[p]) else None }

    function Flagged(f: Flag): bool { f in flags && flags[f] }

    predicate Human(p: Path) { p in rows && rows[p].humanModified }
  }

  // ---------------------------------------------------------------------------
  // What one operation does to one path
  // ---------------------------------------------------------------------------

  function OrElse<T>(a: Option<T>, b: Option<T>): Option<T> { if a.Some? then a else b }

  /** A machine's upsert: a corrected row only has its evidence refreshed. */
  function Upserted(
    before: Option<Row>, value: Option<string>, confidence: Option<real>, source: Source, evidence: Option<string>): Row
  {
    match before
    case None => Row(value, confidence, source, evidence, false, None, None, None)
    case Some(r) =>
      if r.humanModified then r.(evidence := OrElse(evidence, r.evidence))
      else r.(valueText := value, confidence := confidence, source := source, evidence := evidence)
  }

  function RowOf(f: Fields, p: Path): Option<Row> { if p in f.rows then Some(f.rows[p]) else None }

  function RowAfterReading(f: Fields, x: Extraction, p: Path): Row {
    var r := x.Of(p);
    Upserted(RowOf(f, p), r.value, r.confidence, FromAi, r.evidence)
  }

  function ValueAfterReading(f: Fields, x: Extraction, p: Path): Option<Value> {
    if x.Of(p).parsed.Some? && !f.Human(p) then x.Of(p).parsed else f.Get(p)
  }

  /** The fields after one extraction has been written onto the notice. */
  function AfterReading(f: Fields, x: Extraction): Fields {
    Fields(
      map p: Path | 0 <= p < PATH_COUNT :: RowAfterReading(f, x, p),
      map p: Path | 0 <= p < PATH_COUNT && ValueAfterReading(f, x, p).Some? :: ValueAfterReading(f, x, p).value,
      f.flags + x.flags,
      if f.Human(EstimatedLoss) then f.currency else OrElse(x.currency, Some(f.currency)).value)
  }

  /** The row after an officer's correction: the first one keeps what was read before. */
  function Corrected(before: Option<Row>, display: Option<string>, actor: string, reason: Option<string>): Row {
    var evidence := if before.Some? then before.value.evidence else None;
    var original :=
      if before.None? then display
      else if before.value.humanModified then before.value.originalValue
      else before.value.valueText;
    Row(display, Some(1.0), FromHuman, evidence, true, original, Some(actor), reason)
  }

  /** The fields after one typed edit; setting a value it already has is no change. */
  function AfterEdit(
    f: Fields, p: Path, parsed: Option<Value>, display: Option<string>, actor: string, reason: Option<string>): Fields
  {
    if parsed == f.Get(p) then f
    else f.(
      rows := f.rows[p := Corrected(RowOf(f, p), display, actor, reason)],
      values := if parsed.Some? then f.values[p := parsed.value] else f.values - {p})
  }

  function AfterToggle(f: Fields, g: Flag, on: bool): Fields {
    if f.Flagged(g) == on then f else f.(flags := f.flags[g := on])
  }

  /** Confirming a policy makes the policy record the authority on its number. */
  function AfterSelection(f: Fields, number: string, insured: string): Fields {
    f.(values :=
      var numbered := f.values[PolicyNumber := Text(number)];
      if f.Get(InsuredName).None? || f.Get(InsuredName) == Some(Text(""))
      then numbered[InsuredName := Text(insured)] else numbered)
  }

  /** A value the channel supplied outright, recorded at intake. */
  function AfterSupply(f: Fields, p: Path, text: string): Fields {
    f.(rows := f.rows[p := Upserted(RowOf(f, p), Some(text), Some(1.0), FromChannel, Some("Supplied by the channel."))])
  }

  function AfterUpdates(f: Fields, updates: seq<Update>, actor: string, reason: Option<string>): Fields {
    if updates == [] then f
    else
      var g := AfterUpdates(f, updates[..|updates| - 1], actor, reason);
      match updates[|updates| - 1]
      case Typed(p, parsed, display) => AfterEdit(g, p, parsed, display, actor, reason)
      case Toggle(flag, on) => AfterToggle(g, flag, on)
      case Refused => g
  }

  /** How many of the updates, in order, change something. */
  function Changes(f: Fields, updates: seq<Update>, actor: string, reason: Option<string>): nat {
    if updates == [] then 0
    else
      var g := AfterUpdates(f, updates[..|updates| - 1], actor, reason);
      Changes(f, updates[..|updates| - 1], actor, reason) +
      match updates[|updates| - 1]
      case Typed(p, parsed, _) => if parsed == g.Get(p) then 0 else 1
      case Toggle(flag, on) => if g.Flagged(flag) == on then 0 else 1
      case Refused => 0
  }

  /** The first paths hold the reading, the others what they held. */
  ghost predicate RecordedBelow(f: Fields, x: Extraction, i: nat, rows: map<Path, Row>, values: map<Path, Value>) {
    && (forall p: Path :: p in rows <==> p in f.rows || p < i)
    && (forall p <- rows :: rows[p] == if p < i then RowAfterReading(f, x, p) else f.rows[p])
    && (forall p: Path :: ValueIn(values, p) == if p < i then ValueAfterReading(f, x, p) else f.Get(p))
  }

  function ValueIn(values: map<Path, Value>, p: Path): Option<Value> {
    if p in values then Some(values[p]) else None
  }

  lemma OneMoreRecorded(f: Fields, x: Extraction, i: Path, rows: map<Path, Row>, values: map<Path, Value>,
                        rows': map<Path, Row>, values': map<Path, Value>)
    requires RecordedBelow(f, x, i, rows, values)
    requires rows' == rows[i := RowAfterReading(f, x, i)]
    requires values' == if ValueAfterReading(f, x, i).Some? then values[i := ValueAfterReading(f, x, i).value] else values
    ensures RecordedBelow(f, x, i + 1, rows', values')
  {
    assert ValueIn(values, i) == f.Get(i);
  }

  lemma AllRecorded(f: Fields, x: Extraction, rows: map<Path, Row>, values: map<Path, Value>)
    requires RecordedBelow(f, x, PATH_COUNT, rows, values)
    ensures rows == AfterReading(f, x).rows && values == AfterReading(f, x).values
  {
    assert forall p: Path :: p in values <==> ValueIn(values, p).Some?;
    assert forall p <- values :: ValueIn(values, p) == Some(values[p]);
  }

  function Overwritten(r: Row, display: Option<string>, actor: string, reason: Option<string>): Row {
    Row(display, Some(1.0), FromHuman, r.evidence, true,
        if r.humanModified then r.originalValue else r.valueText, Some(actor), reason)
  }

  // ---------------------------------------------------------------------------
  // The service
  // ---------------------------------------------------------------------------

  class Desk {
    var rows: map<Path, Row>
    var values: map<Path, Value>
    var flags: map<Flag, bool>
    var currency: string

    constructor (currency: string)
      ensures Contents() == Fields(map[], map[], map[], currency)
    {
      rows, values, flags := map[], map[], map[];
      this.currency := currency;
    }

    ghost function Contents(): Fields
      reads this
    {
      Fields(rows, values, flags, currency)
    }

    method UpsertField(p: Path, value: Option<string>, confidence: Option<real>, source: Source, evidence: Option<string>)
      modifies this`rows
      ensures rows == old(rows)[p := Upserted(RowOf(old(Contents()), p), value, confidence, source, evidence)]
    {
      if p !in rows {
        rows := rows[p := Row(value, confidence, source, evidence, false, None, None, None)];
      } else if rows[p].humanModified {
        rows := rows[p := rows[p].(evidence := if evidence.Some? then evidence else rows[p].evidence)];
      } else {
        rows := rows[p := rows[p].(valueText := value, confidence := confidence, source := source, evidence := evidence)];
      }
    }

    /** The nested `record` of `apply`. */
    method Record(p: Path, r: Reading)
      modifies this`rows, this`values
      ensures rows == old(rows)[p := Upserted(RowOf(old(Contents()), p), r.value, r.confidence, FromAi, r.evidence)]
      ensures values == if r.parsed.Some? && !old(Contents()).Human(p) then old(values)[p := r.parsed.value] else old(values)
    {
      UpsertField(p, r.value, r.confidence, FromAi, r.evidence);
      if r.parsed.Some? && !rows[p].humanModified {
        values := values[p := r.parsed.value];
      }
    }

    method RecordAll(x: Extraction)
      modifies this`rows, this`values
      ensures rows == AfterReading(old(Contents()), x).rows
      ensures values == AfterReading(old(Contents()), x).values
    {
      ghost var f := Contents();
      for i := 0 to PATH_COUNT
        invariant flags == f.flags && currency == f.currency
        invariant RecordedBelow(f, x, i, rows, values)
      {
        ghost var before, held := rows, values;
        Record(i, x.Of(i));
        OneMoreRecorded(f, x, i, before, held, rows, values);
      }
      AllRecorded(f, x, rows, values);
    }

    /** A model's reading of a boolean fact is taken whenever there is one. */
    method SetFlags(read: map<Flag, bool>)
      modifies this`flags
      ensures flags == old(flags) + read
    {
      ghost var before := flags;
      for i := 0 to |FLAGS|
        invariant forall g :: g in flags <==> g in before || (g in read && g in FLAGS[..i])
        invariant forall g <- flags :: flags[g] == if g in read && g in FLAGS[..i] then read[g] else before[g]
      {
        var g := FLAGS[i];
        assert FLAGS[..i + 1] == FLAGS[..i] + [g];
        if g in read {
          flags := flags[g := read[g]];
        }
      }
      assert FLAGS[..|FLAGS|] == FLAGS;
      forall g: Flag ensures g in FLAGS { EveryFlagIsListed(g); }
    }

    /** Write an extraction onto the notice and its provenance rows. */
    method Apply(x: Extraction)
      modifies this
      ensures Contents() == AfterReading(old(Contents()), x)
    {
      var amountIsHuman := EstimatedLoss in rows && rows[EstimatedLoss].humanModified;
      RecordAll(x);
      if !amountIsHuman {
        currency := if x.currency.Some? then x.currency.value else currency;
      }
      SetFlags(x.flags);
    }

    /** Put the officer's words on a stored row, keeping what the first correction replaced. */
    method MarkHuman(p: Path, display: Option<string>, actor: string, reason: Option<string>)
      requires p in rows
      modifies this`rows
      ensures rows == old(rows)[p := Overwritten(old(rows)[p], display, actor, reason)]
    {
      if !rows[p].humanModified {
        rows := rows[p := rows[p].(originalValue := rows[p].valueText)];
      }
      rows := rows[p := rows[p].(valueText := display, confidence := Some(1.0), source := FromHuman,
                                 humanModified := true, modifiedBy := Some(actor), reason := reason)];
    }

    /** One officer's correction, recorded. */
    method Correct(p: Path, parsed: Option<Value>, display: Option<string>, actor: string, reason: Option<string>)
      returns (changed: bool)
      modifies this`rows, this`values
      ensures Contents() == AfterEdit(old(Contents()), p, parsed, display, actor, reason)
      ensures changed <==> parsed != old(Contents()).Get(p)
    {
      var previous := if p in values then Some(values[p]) else None;
      if parsed == previous {
        return false;
      }
      values := if parsed.Some? then values[p := parsed.value] else values - {p};
      if p !in rows {
        UpsertField(p, display, Some(1.0), FromHuman, None);
      }
      MarkHuman(p, display, actor, reason);
      changed := true;
    }

    /**
     * Apply an officer's corrections in order, up to the first refusal; the request that
     * meets a refusal is rolled back by its caller. Returns whether all were accepted and
     * how many changed something.
     */
    method UpdateFields(updates: seq<Update>, actor: string, reason: Option<string>)
      returns (accepted: bool, changed: nat)
      modifies this
      ensures accepted <==> Refused !in updates
      ensures accepted ==> Contents() == AfterUpdates(old(Contents()), updates, actor, reason)
      ensures accepted ==> changed == Changes(old(Contents()), updates, actor, reason)
      ensures accepted && changed == 0 ==> Contents() == old(Contents())
    {
      accepted, changed := true, 0;
      for i := 0 to |updates|
        invariant accepted && Refused !in updates[..i]
        invariant Contents() == AfterUpdates(old(Contents()), updates[..i], actor, reason)
        invariant changed == Changes(old(Contents()), updates[..i], actor, reason)
        invariant changed == 0 ==> Contents() == old(Contents())
      {
        assert updates[..i + 1][..i] == updates[..i];
        match updates[i]
        case Refused =>
          return false, changed;
        case Toggle(flag, on) =>
          if (flag in flags && flags[flag]) != on {
            flags := flags[flag := on];
            changed := changed + 1;
          }
        case Typed(p, parsed, display) =>
          var moved := Correct(p, parsed, display, actor, reason);
          if moved { changed := changed + 1; }
      }
      assert updates[..|updates|] == updates;
    }

    method Select(number: string, insured: string)
      modifies this`values
      ensures Contents() == AfterSelection(old(Contents()), number, insured)
    {
      var named := InsuredName in values && values[InsuredName] != Text("");
      values := values[PolicyNumber := Text(number)];
      if !named {
        values := values[InsuredName := Text(insured)];
      }
    }
  }

  lemma EveryFlagIsListed(g: Flag)
    ensures g in FLAGS
  {
    var i := match g case BusinessInterruption => 0 case StructuralDamage => 1
      case EnvironmentalExposure => 2 case PotentialLitigation => 3;
    assert FLAGS[i] == g;
  }
}
