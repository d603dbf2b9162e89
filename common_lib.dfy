/**
  The helpers of `common/src/lib.rs`: the time-limited value `TimeValidated`
  and the two console prompts `choice` and `yes_no_choice`, with what the
  user types given as a parameter. Instants are integers (nanoseconds) and
  durations naturals.
 */
module CommonLib {
  import opened Wire

  // ------------------------------------------------------- TimeValidated

  /** A value, the instant it last changed and how long it stays valid. The
      server keeps these by value inside its client records, so the setters
      return the updated record. */
  datatype TimeValidated<T> = TimeValidated(lastChanged: int, validTime: nat, value: T)

  /** `Instant::elapsed` at `now`: the shortest duration that takes `since`
      to `now` or past it, so an instant in the future has elapsed zero. */
  function Elapsed(since: int, now: int): (d: nat)
    ensures now <= since + d
    ensures d > 0 ==> since + (d - 1) < now
  {
    if now >= since then now - since else 0
  }

  /** `TimeValidated::new_with_change` */
  function NewWithChange<T>(value: T, validTime: nat, lastChanged: int): (tv: TimeValidated<T>)
    ensures tv.value == value && tv.validTime == validTime && tv.lastChanged == lastChanged
    ensures LastChanged(tv) == lastChanged
  {
    TimeValidated(lastChanged, validTime, value)
  }

  /** `TimeValidated::new`: changed now. */
  function New<T>(value: T, validTime: nat, now: int): (tv: TimeValidated<T>)
    ensures tv == NewWithChange(value, validTime, now)
    ensures IsValid(tv, now)
  {
    TimeValidated(now, validTime, value)
  }

  /** `is_valid`: no more than the valid time has elapsed. */
  predicate IsValid<T>(tv: TimeValidated<T>, now: int) {
    Elapsed(tv.lastChanged, now) <= tv.validTime
  }

  /** `get`: the value while it is valid. */
  function Get<T>(tv: TimeValidated<T>, now: int): (r: Option<T>)
    ensures r.Some? <==> now <= tv.lastChanged + tv.validTime
    ensures r.Some? ==> r.value == tv.value
  {
    if IsValid(tv, now) then Some(tv.value) else None
  }

  /** `set_with_time`: a new value and change instant; the valid time stays. */
  function SetWithTime<T>(tv: TimeValidated<T>, value: T, lastChanged: int): (r: TimeValidated<T>)
    ensures r.value == value && r.lastChanged == lastChanged && r.validTime == tv.validTime
    ensures Get(r, lastChanged) == Some(value)
  {
    tv.(value := value, lastChanged := lastChanged)
  }

  /** `set`: `set_with_time` at the current instant. */
  function Set<T>(tv: TimeValidated<T>, value: T, now: int): (r: TimeValidated<T>)
    ensures r == SetWithTime(tv, value, now)
    ensures IsValid(r, now)
  {
    tv.(value := value, lastChanged := now)
  }

  /** `last_changed` */
  function LastChanged<T>(tv: TimeValidated<T>): int {
    tv.lastChanged
  }

  /** A value stays valid for exactly its valid time after a change. */
  lemma ValidityWindow<T>(tv: TimeValidated<T>, value: T, t: int, now: int)
    requires now >= t
    ensures IsValid(SetWithTime(tv, value, t), now) <==> now - t <= tv.validTime
    ensures Get(SetWithTime(tv, value, t), now).Some? <==> now - t <= tv.validTime
  {
  }

  // ------------------------------------------------------------ prompts

  /** The indices, in increasing order, of the listed items that can be chosen. */
  function Selectable(isChoice: seq<bool>): seq<nat> {
    if isChoice == [] then []
    else Selectable(isChoice[..|isChoice| - 1]) + (if isChoice[|isChoice| - 1] then [|isChoice| - 1] else [])
  }

  /** Every selectable index names a choosable item, they increase strictly,
      and every choosable item is listed. */
  lemma {:induction false} SelectableIndices(isChoice: seq<bool>)
    ensures forall k :: 0 <= k < |Selectable(isChoice)| ==>
      Selectable(isChoice)[k] < |isChoice| && isChoice[Selectable(isChoice)[k]]
    ensures forall k, l :: 0 <= k < l < |Selectable(isChoice)| ==> Selectable(isChoice)[k] < Selectable(isChoice)[l]
    ensures forall i :: 0 <= i < |isChoice| && isChoice[i] ==> i in Selectable(isChoice)
  {
    if isChoice != [] {
      var init := isChoice[..|isChoice| - 1];
      SelectableIndices(init);
      assert forall i :: 0 <= i < |init| ==> isChoice[i] == init[i];
    }
  }

  /** What `get_from_stdin::<usize>` gives: a number, or a read or parse error. */
  datatype Entry = Entered(v: nat) | EntryFailed

  datatype ChoiceError = GetFromStdin | NoDefault(v: nat)

  datatype ChoiceResult = Chosen(index: nat) | ChoiceFailed(error: ChoiceError)

  /** `choice`: lists the items, numbering the choosable ones, then maps the
      entered number to the index of that item. A number past the list gives
      the default as it is, or NoDefault. */
  method Choice(isChoice: seq<bool>, entry: Entry, defaultChoice: Option<nat>) returns (r: ChoiceResult)
    ensures entry.EntryFailed? ==> r == ChoiceFailed(GetFromStdin)
    ensures entry.Entered? && entry.v < |Selectable(isChoice)| ==> r == Chosen(Selectable(isChoice)[entry.v])
    ensures entry.Entered? && entry.v >= |Selectable(isChoice)| ==>
      r == (if defaultChoice.Some? then Chosen(defaultChoice.value) else ChoiceFailed(NoDefault(entry.v)))
  {
    var mapping: seq<nat> := [];
    var i := 0;
    while i < |isChoice|
      invariant 0 <= i <= |isChoice|
      invariant mapping == Selectable(isChoice[..i])
    {
      assert isChoice[..i + 1][..i] == isChoice[..i];
      if isChoice[i] {
        mapping := mapping + [i];
      }
      i := i + 1;
    }
    assert isChoice[..i] == isChoice;
    if entry.EntryFailed? {
      return ChoiceFailed(GetFromStdin);
    }
    var v := entry.v;
    if v >= |mapping| {
      if defaultChoice.Some? {
        r := Chosen(defaultChoice.value);
      } else {
        r := ChoiceFailed(NoDefault(v));
      }
    } else {
      r := Chosen(mapping[v]);
    }
  }

  /** An entered number within the list always picks a choosable item. */
  lemma ChosenIsSelectable(isChoice: seq<bool>, v: nat)
    requires v < |Selectable(isChoice)|
    ensures Selectable(isChoice)[v] < |isChoice| && isChoice[Selectable(isChoice)[v]]
  {
    SelectableIndices(isChoice);
  }

  /** ASCII lower-casing of one character: never an upper-case letter,
      changed only when it was one, and then the lower-case letter at the
      same place in the alphabet. */
  function Lower(c: char): (l: char)
    ensures !('A' <= l <= 'Z')
    ensures l != c ==> 'A' <= c <= 'Z'
    ensures 'A' <= c <= 'Z' ==> 'a' <= l <= 'z' && l as int - 'a' as int == c as int - 'A' as int
  {
    if 'A' <= c <= 'Z' then (c as int + 32) as char else c
  }

  function LowerString(s: string): (r: string)
    ensures |r| == |s| && forall i :: 0 <= i < |s| ==> r[i] == Lower(s[i])
  {
    if s == [] then [] else [Lower(s[0])] + LowerString(s[1..])
  }

  /** `yes_no_choice` for the line read (None when reading failed): an empty
      answer or a failure gives the default, otherwise "y" or "yes" in any
      case means yes. */
  function YesNoChoice(answer: Option<string>, default: bool): (r: bool)
    ensures answer.None? || answer.value == [] ==> r == default
    ensures answer.Some? && answer.value != [] ==> (r <==> LowerString(answer.value) in {"y", "yes"})
  {
    match answer
    case Some(a) => if a != [] then LowerString(a) == "y" || LowerString(a) == "yes" else default
    case None => default
  }

  /** Exactly the case variants of "y" and "yes" count as yes. */
  lemma YesAnswers(a: string, default: bool)
    requires a != []
    ensures YesNoChoice(Some(a), default) <==>
      (|a| == 1 && Lower(a[0]) == 'y') || (|a| == 3 && Lower(a[0]) == 'y' && Lower(a[1]) == 'e' && Lower(a[2]) == 's')
  {
    var l := LowerString(a);
    if |a| == 1 && Lower(a[0]) == 'y' {
      assert l == "y";
    }
    if |a| == 3 && Lower(a[0]) == 'y' && Lower(a[1]) == 'e' && Lower(a[2]) == 's' {
      assert l == "yes";
    }
  }
}
