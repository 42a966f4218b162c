/** An officer's correction outlives every later reading. */
module FieldTheorems {
  import opened Wrappers
  import opened FieldStore

  datatype Action =
    | Read(x: Extraction)
    | Edit(path: Path, parsed: Option<Value>, display: Option<string>, actor: string, reason: Option<string>)
    | Switch(flag: Flag, on: bool)
    | ConfirmPolicy(number: string, insured: string)
    | Supply(path: Path, text: string)

  function After(f: Fields, a: Action): Fields {
    match a
    case Read(x) => AfterReading(f, x)
    case Edit(p, parsed, display, actor, reason) => AfterEdit(f, p, parsed, display, actor, reason)
    case Switch(g, on) => AfterToggle(f, g, on)
    case ConfirmPolicy(number, insured) => AfterSelection(f, number, insured)
    case Supply(p, text) => AfterSupply(f, p, text)
  }

  function Run(f: Fields, actions: seq<Action>): Fields {
    if actions == [] then f else After(Run(f, actions[..|actions| - 1]), actions[|actions| - 1])
  }

  /** Everything about a corrected row but the evidence a later reading may refresh. */
  predicate SameCorrection(a: Row, b: Row) { a.(evidence := None) == b.(evidence := None) }

  /** Confirming a policy may set these two values without an edit. */
  predicate SetByPolicy(p: Path) { p == PolicyNumber || p == InsuredName }

  predicate LeavesAlone(a: Action, p: Path) {
    && !(a.Edit? && a.path == p)
    && !(a.ConfirmPolicy? && SetByPolicy(p))
  }

  lemma StepKeepsCorrection(f: Fields, a: Action, p: Path)
    requires f.Human(p) && LeavesAlone(a, p)
    ensures After(f, a).Human(p) && SameCorrection(After(f, a).rows[p], f.rows[p])
    ensures After(f, a).Get(p) == f.Get(p)
  {
  }

  /**
   * Over every sequence of readings, edits elsewhere, toggles and supplied values, a
   * corrected path keeps its row (value, confidence, source, author, original) and the
   * notice keeps the officer's value, even when that value was a clearing.
   */
  lemma {:induction false} CorrectionSurvives(f: Fields, actions: seq<Action>, p: Path)
    requires f.Human(p)
    requires forall a <- actions :: LeavesAlone(a, p)
    ensures var g := Run(f, actions);
      g.Human(p) && SameCorrection(g.rows[p], f.rows[p]) && g.Get(p) == f.Get(p)
  {
    if actions != [] {
      CorrectionSurvives(f, actions[..|actions| - 1], p);
      StepKeepsCorrection(Run(f, actions[..|actions| - 1]), actions[|actions| - 1], p);
    }
  }

  /** The last effective edit of a path is what every later run ends with. */
  lemma LastEditWins(f: Fields, p: Path, v: Option<Value>, display: Option<string>, actor: string,
                     reason: Option<string>, later: seq<Action>)
    requires v != f.Get(p)
    requires forall a <- later :: LeavesAlone(a, p)
    ensures var g := Run(AfterEdit(f, p, v, display, actor, reason), later);
      && g.Get(p) == v && g.Human(p) && g.rows[p].valueText == display
      && g.rows[p].source == FromHuman && g.rows[p].confidence == Some(1.0) && g.rows[p].modifiedBy == Some(actor)
  {
    CorrectionSurvives(AfterEdit(f, p, v, display, actor, reason), later, p);
  }

  /**
   * Exactly when an entered value outranks every reading: it changed something, or the
   * path had been corrected before. Re-entering what a machine read protects nothing.
   */
  lemma EntryOutranksReadings(f: Fields, p: Path, v: Option<Value>, display: Option<string>, actor: string,
                              reason: Option<string>)
    ensures (forall x: Extraction :: AfterReading(AfterEdit(f, p, v, display, actor, reason), x).Get(p) == v)
        <==> v != f.Get(p) || f.Human(p)
  {
    var g := AfterEdit(f, p, v, display, actor, reason);
    if v != f.Get(p) || f.Human(p) {
      forall x: Extraction ensures AfterReading(g, x).Get(p) == v {
        StepKeepsCorrection(g, Read(x), p);
      }
    } else {
      var other := if v == Some(Number(0)) then Number(1) else Number(0);
      var x := Extraction(map[p := Reading(None, None, None, Some(other))], map[], None);
      assert AfterReading(g, x).Get(p) == Some(other);
    }
  }

  /**
   * A confirmed policy's number replaces even a corrected one, but confirming does not
   * correct the path: the number stands against every reading exactly when an officer had
   * corrected it before.
   */
  lemma SelectionOutranksReadings(f: Fields, number: string, insured: string)
    ensures AfterSelection(f, number, insured).Get(PolicyNumber) == Some(Text(number))
    ensures (forall x: Extraction :: AfterReading(AfterSelection(f, number, insured), x).Get(PolicyNumber) == Some(Text(number)))
        <==> f.Human(PolicyNumber)
  {
    var g := AfterSelection(f, number, insured);
    assert g.Get(PolicyNumber) == Some(Text(number));
    if f.Human(PolicyNumber) {
      forall x: Extraction ensures AfterReading(g, x).Get(PolicyNumber) == Some(Text(number)) {
        StepKeepsCorrection(g, Read(x), PolicyNumber);
      }
    } else {
      var other := number + "0";
      var x := Extraction(map[PolicyNumber := Reading(Some(other), None, None, Some(Text(other)))], map[], None);
      assert AfterReading(g, x).Get(PolicyNumber) == Some(Text(other)) && |other| != |number|;
    }
  }

  /** The first correction keeps what was there before it; without a row, its own text. */
  lemma FirstCorrectionKeepsReading(f: Fields, p: Path, v: Option<Value>, display: Option<string>, actor: string,
                                    reason: Option<string>)
    requires v != f.Get(p) && !f.Human(p)
    ensures var g := AfterEdit(f, p, v, display, actor, reason);
      g.Human(p) && g.rows[p].originalValue == if p in f.rows then f.rows[p].valueText else display
  {
  }

  lemma StepKeepsOriginal(f: Fields, a: Action, p: Path)
    requires f.Human(p)
    ensures After(f, a).Human(p) && After(f, a).rows[p].originalValue == f.rows[p].originalValue
  {
  }

  /** After the first correction, no action at all rewrites the original value or unmarks the row. */
  lemma {:induction false} OriginalIsWrittenOnce(f: Fields, actions: seq<Action>, p: Path)
    requires f.Human(p)
    ensures Run(f, actions).Human(p) && Run(f, actions).rows[p].originalValue == f.rows[p].originalValue
  {
    if actions != [] {
      OriginalIsWrittenOnce(f, actions[..|actions| - 1], p);
      StepKeepsOriginal(Run(f, actions[..|actions| - 1]), actions[|actions| - 1], p);
    }
  }

  /** While the amount is the officer's, its currency is too. */
  lemma {:induction false} AmountKeepsItsCurrency(f: Fields, actions: seq<Action>)
    requires f.Human(EstimatedLoss)
    ensures Run(f, actions).currency == f.currency
  {
    if actions != [] {
      AmountKeepsItsCurrency(f, actions[..|actions| - 1]);
      OriginalIsWrittenOnce(f, actions[..|actions| - 1], EstimatedLoss);
    }
  }

  lemma RereadingPath(f: Fields, x: Extraction, p: Path)
    ensures var once := AfterReading(f, x);
      && RowAfterReading(once, x, p) == RowAfterReading(f, x, p)
      && ValueAfterReading(once, x, p) == ValueAfterReading(f, x, p)
  {
    var once := AfterReading(f, x);
    assert once.rows[p].humanModified == f.Human(p);
    assert once.Get(p) == ValueAfterReading(f, x, p);
  }

  /** Reading the same notice again changes nothing the first reading did not. */
  lemma RereadingIsIdempotent(f: Fields, x: Extraction)
    ensures AfterReading(AfterReading(f, x), x) == AfterReading(f, x)
  {
    var once := AfterReading(f, x);
    var twice := AfterReading(once, x);
    forall p: Path
      ensures RowAfterReading(once, x, p) == RowAfterReading(f, x, p)
      ensures ValueAfterReading(once, x, p) == ValueAfterReading(f, x, p)
    {
      RereadingPath(f, x, p);
    }
    assert twice.rows == once.rows;
    assert twice.values == once.values;
    assert once.flags + x.flags == once.flags;
  }

  // ---------------------------------------------------------------------------
  // The switches
  // ---------------------------------------------------------------------------

  /** What this action states about a switch, if anything. */
  function Said(a: Action, g: Flag): Option<bool> {
    match a
    case Read(x) => if g in x.flags then Some(x.flags[g]) else None
    case Switch(h, on) => if h == g then Some(on) else None
    case _ => None
  }

  function LastSaid(actions: seq<Action>, g: Flag): Option<bool> {
    if actions == [] then None
    else OrElse(Said(actions[|actions| - 1], g), LastSaid(actions[..|actions| - 1], g))
  }

  /** A switch stands as whatever spoke of it last left it, officer or machine alike. */
  lemma {:induction false} SwitchIsLastSaid(f: Fields, actions: seq<Action>, g: Flag)
    ensures Run(f, actions).Flagged(g) == OrElse(LastSaid(actions, g), Some(f.Flagged(g))).value
  {
    if actions != [] {
      SwitchIsLastSaid(f, actions[..|actions| - 1], g);
    }
  }

  /**
   * The switches have no protection: an officer's setting survives what follows exactly
   * when the last reading or edit that states the switch at all states the same; and so a
   * single reading undoes it exactly when it states the opposite.
   */
  lemma TogglesAreNotProtected(f: Fields, g: Flag, on: bool, later: seq<Action>, x: Extraction)
    ensures Run(AfterToggle(f, g, on), later).Flagged(g) == on <==> LastSaid(later, g) in {None, Some(on)}
    ensures AfterReading(AfterToggle(f, g, on), x).Flagged(g) == on <==> !(g in x.flags && x.flags[g] != on)
  {
    SwitchIsLastSaid(AfterToggle(f, g, on), later, g);
  }
}
