/**
  The reads screen's counter: the adjustment dialog's validation, the adjustments it
  applies to a mantra's reads count and goal, and the last-in-first-out undo log that lets each
  adjustment be taken back (`ReadsViewModel`).
*/
module ReadsCount {
  import opened Wrappers
  import opened IntegerParsing

  /** The largest count or goal the adjustment dialog accepts. */
  const MaxReads: int := 1_000_000
  /** Recitations in one round of a mala. */
  const ReadsInRound: int := 108

  /** What the adjustment dialog does with its number. */
  datatype AdjustingType = Reads | Rounds | Value | Goal

  /** The field an undo entry restores: `.value` the reads count, `.goal` the goal. */
  datatype UndoType = Value | Goal

  /** An element of `undoHistory`: the prior value of the field an adjustment overwrote. */
  datatype UndoEntry = UndoEntry(value: int, kind: UndoType)

  /** The part of the view model the counter logic reads and writes. */
  datatype Counter = Counter(readsCount: int, goal: int, history: seq<UndoEntry>)

  /** The value an adjustment writes: the reads count for the first three kinds, the goal for `.goal`. */
  function AdjustedValue(readsCount: int, adjust: AdjustingType, number: int): int {
    match adjust
    case Reads => readsCount + number
    case Rounds => readsCount + number * ReadsInRound
    case Value => number
    case Goal => number
  }

  /** The `Int32` arithmetic of `handleAdjusting` stays in range, so it does not trap. */
  predicate AdjustmentFits(readsCount: int, adjust: AdjustingType, number: int) {
    IsInt32(number) &&
    match adjust
    case Reads => IsInt32(readsCount + number)
    case Rounds => IsInt32(number * ReadsInRound) && IsInt32(readsCount + number * ReadsInRound)
    case Value => true
    case Goal => true
  }

  /** `handleAdjusting(for:with:)`: record the overwritten value, then overwrite it. */
  function Adjust(s: Counter, adjust: Option<AdjustingType>, number: int): (r: Counter)
    ensures adjust.None? ==> r == s
    ensures adjust.Some? ==> |r.history| == |s.history| + 1 && r.history[..|s.history|] == s.history
  {
    match adjust
    case None => s
    case Some(Goal) =>
      Counter(s.readsCount, number, s.history + [UndoEntry(s.goal, UndoType.Goal)])
    case Some(t) =>
      Counter(AdjustedValue(s.readsCount, t, number), s.goal, s.history + [UndoEntry(s.readsCount, UndoType.Value)])
  }

  /** `handleUndo()`: restore the field the last entry names and drop that entry. */
  function Undo(s: Counter): (r: Counter)
    ensures |s.history| > 0 ==> r.history == s.history[..|s.history| - 1]
    ensures |s.history| == 0 ==> r == s
  {
    if s.history == [] then s
    else
      var last := s.history[|s.history| - 1];
      var earlier := s.history[..|s.history| - 1];
      match last.kind
      case Value => Counter(last.value, s.goal, earlier)
      case Goal => Counter(s.readsCount, last.value, earlier)
  }

  /** An adjustment records the value it overwrites, and only that field changes. */
  lemma AdjustRecordsPriorValue(s: Counter, adjust: AdjustingType, number: int)
    ensures var r := Adjust(s, Some(adjust), number);
      && r.history == s.history + [if adjust.Goal? then UndoEntry(s.goal, UndoType.Goal) else UndoEntry(s.readsCount, UndoType.Value)]
      && (adjust.Goal? ==> r.readsCount == s.readsCount && r.goal == number)
      && (!adjust.Goal? ==> r.goal == s.goal && r.readsCount == AdjustedValue(s.readsCount, adjust, number))
  {
  }

  /** Undo takes back an adjustment: reads count, goal and the history are as before it. */
  lemma UndoAfterAdjust(s: Counter, adjust: AdjustingType, number: int)
    ensures Undo(Adjust(s, Some(adjust), number)) == s
  {
    var r := Adjust(s, Some(adjust), number);
    assert r.history[..|r.history| - 1] == s.history;
  }

  /** Undo restores exactly the field its last entry names. */
  lemma UndoRestoresNamedField(s: Counter)
    requires |s.history| > 0
    ensures var last := s.history[|s.history| - 1];
      && (last.kind == UndoType.Value ==> Undo(s).readsCount == last.value && Undo(s).goal == s.goal)
      && (last.kind == UndoType.Goal ==> Undo(s).goal == last.value && Undo(s).readsCount == s.readsCount)
  {
  }

  /** Applies a run of adjustments in order. */
  function AdjustAll(s: Counter, ops: seq<(AdjustingType, int)>): (r: Counter)
    ensures |r.history| == |s.history| + |ops|
  {
    if ops == [] then s
    else
      var last := ops[|ops| - 1];
      Adjust(AdjustAll(s, ops[..|ops| - 1]), Some(last.0), last.1)
  }

  /** Undoes `k` times. */
  function UndoTimes(s: Counter, k: nat): Counter
    decreases k
  {
    if k == 0 then s else UndoTimes(Undo(s), k - 1)
  }

  /** Undoing as many times as there were adjustments restores the state before them all. */
  lemma {:induction false} UndoEveryAdjustment(s: Counter, ops: seq<(AdjustingType, int)>)
    ensures UndoTimes(AdjustAll(s, ops), |ops|) == s
  {
    if ops != [] {
      var earlier := ops[..|ops| - 1];
      var last := ops[|ops| - 1];
      UndoAfterAdjust(AdjustAll(s, earlier), last.0, last.1);
      UndoEveryAdjustment(s, earlier);
    }
  }

  /** Every value the counter holds or can restore lies in `0...MaxReads`. */
  predicate Bounded(s: Counter) {
    0 <= s.readsCount <= MaxReads && 0 <= s.goal <= MaxReads &&
    forall i :: 0 <= i < |s.history| ==> 0 <= s.history[i].value <= MaxReads
  }

  /** The numbers `Int32` can hold are the ones the view model's fields can hold. */
  predicate Int32State(s: Counter) {
    IsInt32(s.readsCount) && IsInt32(s.goal) &&
    forall i :: 0 <= i < |s.history| ==> IsInt32(s.history[i].value)
  }

  /** What the dialog's new value must satisfy: in `0...MaxReads`, with no overflowing multiplication. */
  predicate NewValueAcceptable(readsCount: int, adjust: AdjustingType, n: int) {
    match adjust
    case Reads => 0 <= readsCount && readsCount + n <= MaxReads
    case Rounds => n * ReadsInRound <= UInt32Max && 0 <= readsCount && readsCount + n * ReadsInRound <= MaxReads
    case Value => n <= MaxReads
    case Goal => n <= MaxReads
  }

  /**
    `isValidUpdatingNumber(for:adjustingType:)` as it is evidently meant to work: the text
    parses as a `UInt32`, there is an adjustment kind, and the value it would write lies
    in `0...MaxReads`.  A count too large for `UInt32` arithmetic is rejected rather than
    trapping (see `IsValidUpdatingNumberAsWritten`).
  */
  function IsValidUpdatingNumber(readsCount: int, text: Option<string>, adjust: Option<AdjustingType>): (valid: bool)
    ensures valid ==> text.Some? && adjust.Some? && ParseUInt32(text.value).Some?
    ensures valid ==> 0 <= AdjustedValue(readsCount, adjust.value, ParseUInt32(text.value).value) <= MaxReads
  {
    text.Some? && adjust.Some? &&
    match ParseUInt32(text.value)
    case None => false
    case Some(n) => NewValueAcceptable(readsCount, adjust.value, n)
  }

  /** What evaluating the source's check produces: an answer, or a runtime trap. */
  datatype Verdict = Answer(valid: bool) | Trap

  /** `UInt32(mantra.reads) + m` compared with `0...1_000_000`, trapping where Swift's checked arithmetic does. */
  function UInt32SumInRange(readsCount: int, m: int): (v: Verdict)
    ensures v == Trap <==> !(0 <= readsCount && readsCount + m <= UInt32Max)
    ensures v.Answer? && 0 <= m ==> (v.valid <==> 0 <= readsCount + m <= MaxReads)
  {
    if readsCount < 0 || readsCount + m > UInt32Max then Trap else Answer(readsCount + m <= MaxReads)
  }

  /**
    `isValidUpdatingNumber` as written: the `.reads` and `.rounds` cases add in `UInt32`,
    which traps when the current reads count is negative or the sum passes `UInt32.max`.
  */
  function IsValidUpdatingNumberAsWritten(readsCount: int, text: Option<string>, adjust: Option<AdjustingType>): (v: Verdict)
    ensures v == Trap ==> adjust == Some(Reads) || adjust == Some(Rounds)
  {
    if text.None? then Answer(false)
    else match ParseUInt32(text.value)
      case None => Answer(false)
      case Some(n) =>
        match adjust
        case None => Answer(false)
        case Some(Reads) => UInt32SumInRange(readsCount, n)
        case Some(Rounds) =>
          if n * ReadsInRound > UInt32Max then Answer(false) else UInt32SumInRange(readsCount, n * ReadsInRound)
        case Some(Value) => Answer(n <= MaxReads)
        case Some(Goal) => Answer(n <= MaxReads)
  }

  /** Where the source's check does not trap, it gives the intended answer. */
  lemma AsWrittenAgreesWhenNoTrap(readsCount: int, text: Option<string>, adjust: Option<AdjustingType>)
    requires IsValidUpdatingNumberAsWritten(readsCount, text, adjust) != Trap
    ensures IsValidUpdatingNumberAsWritten(readsCount, text, adjust) == Answer(IsValidUpdatingNumber(readsCount, text, adjust))
  {
  }

  /**
    The source's check traps exactly when a `UInt32` number is entered for `.reads` or
    `.rounds` (with `number * 108` not overflowing) and the current reads count is negative or
    the sum passes `UInt32.max`.
  */
  lemma AsWrittenTrapsExactlyOnUInt32Sum(readsCount: int, text: Option<string>, adjust: Option<AdjustingType>)
    ensures IsValidUpdatingNumberAsWritten(readsCount, text, adjust) == Trap <==>
      && text.Some? && ParseUInt32(text.value).Some? && adjust.Some?
      && var n := ParseUInt32(text.value).value;
        || (adjust.value.Reads? && (readsCount < 0 || readsCount + n > UInt32Max))
        || (adjust.value.Rounds? && n * ReadsInRound <= UInt32Max && (readsCount < 0 || readsCount + n * ReadsInRound > UInt32Max))
  {
  }

  /** Entering 4294967295 for `.reads` with a positive count traps, where the intended check says no. */
  lemma ReadsSumTraps(readsCount: int)
    requires 1 <= readsCount <= MaxReads
    ensures IsValidUpdatingNumberAsWritten(readsCount, Some(Numeral(UInt32Max)), Some(Reads)) == Trap
    ensures !IsValidUpdatingNumber(readsCount, Some(Numeral(UInt32Max)), Some(Reads))
  {
    ParseNumeral(UInt32Max, 0, UInt32Max);
  }

  /** Entering 39768215 rounds at a count of 100 traps (39768215 * 108 + 100 passes `UInt32.max`). */
  lemma RoundsSumTraps()
    ensures IsValidUpdatingNumberAsWritten(100, Some(Numeral(39768215)), Some(Rounds)) == Trap
    ensures !IsValidUpdatingNumber(100, Some(Numeral(39768215)), Some(Rounds))
  {
    ParseNumeral(39768215, 0, UInt32Max);
  }

  /**
    A number that passes validation also parses as `Int32` to the same value, so the
    caller's `guard let alertNumber = Int32(adjustingText)` never gives up, and applying
    it neither traps nor writes a value outside `0...MaxReads`.
  */
  lemma ValidatedAdjustmentInBounds(s: Counter, text: string, adjust: AdjustingType)
    requires IsValidUpdatingNumber(s.readsCount, Some(text), Some(adjust))
    ensures ParseInt32(text) == ParseUInt32(text)
    ensures AdjustmentFits(s.readsCount, adjust, ParseUInt32(text).value)
    ensures 0 <= AdjustedValue(s.readsCount, adjust, ParseUInt32(text).value) <= MaxReads
  {
    ParseAcrossTypes(text, 0, UInt32Max, Int32Min, Int32Max);
  }

  /** A validated adjustment keeps every current and restorable value in `0...MaxReads`. */
  lemma ValidatedAdjustmentKeepsBounds(s: Counter, text: string, adjust: AdjustingType)
    requires Bounded(s)
    requires IsValidUpdatingNumber(s.readsCount, Some(text), Some(adjust))
    ensures Bounded(Adjust(s, Some(adjust), ParseUInt32(text).value))
  {
    var r := Adjust(s, Some(adjust), ParseUInt32(text).value);
    assert forall i :: 0 <= i < |s.history| ==> r.history[i] == s.history[i];
  }

  /** Undo keeps every current and restorable value in `0...MaxReads`. */
  lemma UndoKeepsBounds(s: Counter)
    requires Bounded(s)
    ensures Bounded(Undo(s))
  {
  }

  /** A mantra's stored counters (the Core Data entity's attributes the screen changes). */
  class Mantra {
    var readsCount: int
    var readsGoal: int
    var isFavorite: bool

    constructor(readsCount: int, readsGoal: int, isFavorite: bool)
      ensures this.readsCount == readsCount && this.readsGoal == readsGoal && this.isFavorite == isFavorite
    {
      this.readsCount := readsCount;
      this.readsGoal := readsGoal;
      this.isFavorite := isFavorite;
    }
  }

  /** `ReadsViewModel`: the mantra on screen and the undo log of its adjustments. */
  class ReadsViewModel {
    const mantra: Mantra
    var undoHistory: seq<UndoEntry>

    /** The counters and the log, as the value the specification functions work on. */
    function State(): Counter
      reads this, mantra
    {
      Counter(mantra.readsCount, mantra.readsGoal, undoHistory)
    }

    /** Every stored number fits the `Int32` it is kept in. */
    predicate Valid()
      reads this, mantra
    {
      Int32State(State())
    }

    constructor(mantra: Mantra)
      requires IsInt32(mantra.readsCount) && IsInt32(mantra.readsGoal)
      ensures Valid()
      ensures this.mantra == mantra && undoHistory == []
    {
      this.mantra := mantra;
      undoHistory := [];
    }

    /** `toggleFavorite()`; saving the context is left out. */
    method ToggleFavorite()
      modifies mantra
      ensures mantra.isFavorite == !old(mantra.isFavorite)
      ensures State() == old(State())
    {
      mantra.isFavorite := !mantra.isFavorite;
    }

    /** `adjustMantraReads(with:)`; saving the context is left out. */
    method AdjustMantraReads(value: int)
      modifies mantra
      ensures mantra.readsCount == value
      ensures mantra.readsGoal == old(mantra.readsGoal) && mantra.isFavorite == old(mantra.isFavorite)
    {
      mantra.readsCount := value;
    }

    /** `adjustMantraGoal(with:)`; saving the context is left out. */
    method AdjustMantraGoal(value: int)
      modifies mantra
      ensures mantra.readsGoal == value
      ensures mantra.readsCount == old(mantra.readsCount) && mantra.isFavorite == old(mantra.isFavorite)
    {
      mantra.readsGoal := value;
    }

    /** `handleAdjusting(for:with:)`; the `Int32` arithmetic traps unless it fits. */
    method HandleAdjusting(adjust: Option<AdjustingType>, number: int)
      requires adjust.Some? ==> AdjustmentFits(mantra.readsCount, adjust.value, number)
      modifies this, mantra
      ensures State() == Adjust(old(State()), adjust, number)
      ensures mantra.isFavorite == old(mantra.isFavorite)
      ensures old(Valid()) ==> Valid()
    {
      if adjust.None? {
        return;
      }
      match adjust.value
      case Reads =>
        undoHistory := undoHistory + [UndoEntry(mantra.readsCount, UndoType.Value)];
        AdjustMantraReads(mantra.readsCount + number);
      case Rounds =>
        undoHistory := undoHistory + [UndoEntry(mantra.readsCount, UndoType.Value)];
        AdjustMantraReads(mantra.readsCount + number * ReadsInRound);
      case Value =>
        undoHistory := undoHistory + [UndoEntry(mantra.readsCount, UndoType.Value)];
        AdjustMantraReads(number);
      case Goal =>
        undoHistory := undoHistory + [UndoEntry(mantra.readsGoal, UndoType.Goal)];
        AdjustMantraGoal(number);
    }

    /** `handleUndo()`: a no-op on an empty log (the undo button is disabled then). */
    method HandleUndo()
      modifies this, mantra
      ensures State() == Undo(old(State()))
      ensures mantra.isFavorite == old(mantra.isFavorite)
      ensures old(Valid()) ==> Valid()
    {
      if undoHistory == [] {
        return;
      }
      var lastAction := undoHistory[|undoHistory| - 1];
      match lastAction.kind
      case Value =>
        AdjustMantraReads(lastAction.value);
        undoHistory := undoHistory[..|undoHistory| - 1];
      case Goal =>
        AdjustMantraGoal(lastAction.value);
        undoHistory := undoHistory[..|undoHistory| - 1];
    }

    /**
      The reads screen's `validateAndHandleAdjusting()`: validate the dialog's text, parse
      it as `Int32` and apply it; `accepted` is false when the invalid-number alert is shown.
    */
    method ValidateAndHandleAdjusting(text: string, adjust: Option<AdjustingType>) returns (accepted: bool)
      requires Valid()
      modifies this, mantra
      ensures Valid()
      ensures accepted == IsValidUpdatingNumber(old(mantra.readsCount), Some(text), adjust)
      ensures accepted ==> State() == Adjust(old(State()), adjust, ParseUInt32(text).value)
      ensures accepted ==> |undoHistory| > 0
      ensures !accepted ==> State() == old(State())
      ensures Bounded(old(State())) ==> Bounded(State())
      ensures mantra.isFavorite == old(mantra.isFavorite)
    {
      if IsValidUpdatingNumber(mantra.readsCount, Some(text), adjust) {
        ValidatedAdjustmentInBounds(State(), text, adjust.value);
        if Bounded(State()) {
          ValidatedAdjustmentKeepsBounds(State(), text, adjust.value);
        }
        var alertNumber := ParseInt32(text);
        if alertNumber.None? {
          assert false;
          return false;
        }
        HandleAdjusting(adjust, alertNumber.value);
        accepted := true;
      } else {
        accepted := false;
      }
    }

    /**
      Two `toggleFavorite()` calls leave the mantra's favourite flag as it was. This is a
      property of `ToggleFavorite`, stated as a method because it changes state; the view
      model has no such method.
    */
    method ToggleFavoriteTwice()
      modifies mantra
      ensures mantra.isFavorite == old(mantra.isFavorite)
      ensures State() == old(State())
    {
      ToggleFavorite();
      ToggleFavorite();
    }
  }
}
