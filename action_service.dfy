/**
 * The pure helpers of the frontend action service
 * (sistema-paineis-tv/src/services/actionService.ts): an action's status against
 * the clock, the status filter, and the checks on action data and image files.
 * Dates are instants in milliseconds; `None` is a date JavaScript could not parse,
 * which compares false with everything.  The current time is a parameter.
 */
module ActionService {
  import opened Text
  import opened Seqs

  datatype Action = Action(id: string, name: string, start: Option<int>, end: Option<int>)

  datatype Status = Pending | Active | Expired

  /** `a < b` on two `Date`s: false when either is invalid. */
  predicate Before(a: Option<int>, b: Option<int>)
  {
    a.Some? && b.Some? && a.value < b.value
  }

  /** `getActionStatus(action)` at time `now`. */
  function GetActionStatus(a: Action, now: int): Status
  {
    if Before(Some(now), a.start) then Pending
    else if Before(a.end, Some(now)) then Expired
    else Active
  }

  /** `isActionActive(action)` at time `now`. */
  predicate IsActionActive(a: Action, now: int)
  {
    a.start.Some? && a.end.Some? && a.start.value <= now <= a.end.value
  }

  /** With valid dates, the action is active exactly when its status is active: it
      is pending before its start, expired after its end, active in between. */
  lemma StatusOfValidDates(a: Action, now: int)
    requires a.start.Some? && a.end.Some?
    ensures IsActionActive(a, now) <==> GetActionStatus(a, now) == Active
    ensures GetActionStatus(a, now) == Pending <==> now < a.start.value
    ensures GetActionStatus(a, now) == Expired <==> a.start.value <= now && a.end.value < now
  {
  }

  /** With a date that does not parse the two disagree: the action is never
      active, yet its status is active unless the other date decides it. */
  lemma StatusOfInvalidDate(a: Action, now: int)
    requires a.start.None? || a.end.None?
    ensures !IsActionActive(a, now)
    ensures a.start.None? && a.end.None? ==> GetActionStatus(a, now) == Active
    ensures a.start.None? ==> GetActionStatus(a, now) != Pending
    ensures a.end.None? ==> GetActionStatus(a, now) != Expired
  {
  }

  function Rank(s: Status): nat
  {
    match s
    case Pending => 0
    case Active => 1
    case Expired => 2
  }

  /** For an action that does not end before it starts, time only moves its status
      forward: pending, then active, then expired. */
  lemma StatusMonotone(a: Action, t1: int, t2: int)
    requires a.start.Some? && a.end.Some? && a.start.value <= a.end.value
    requires t1 <= t2
    ensures Rank(GetActionStatus(a, t1)) <= Rank(GetActionStatus(a, t2))
  {
  }

  function HasStatus(status: Status, now: int): Action -> bool
  {
    a => GetActionStatus(a, now) == status
  }

  /** `filterActionsByStatus(actions, status)`: the actions with that status, in
      their order in the list; `None` stands for a value that is not an array. */
  function FilterActionsByStatus(actions: Option<seq<Action>>, status: Status, now: int): (r: seq<Action>)
    ensures actions.None? ==> r == []
    ensures actions.Some? ==> forall a :: a in r <==> a in actions.value && GetActionStatus(a, now) == status
    ensures actions.Some? ==> exists idx :: Picks(r, actions.value, HasStatus(status, now), idx)
  {
    match actions
    case None => []
    case Some(s) =>
      FilterPicks(s, HasStatus(status, now));
      forall a ensures a in Filter(s, HasStatus(status, now)) <==> a in s && GetActionStatus(a, now) == status {
        FilterMember(s, HasStatus(status, now), a);
      }
      Filter(s, HasStatus(status, now))
  }

  /** The three status filters split the actions: together they hold as many
      actions as the list. */
  lemma {:induction false} StatusFiltersPartition(s: seq<Action>, now: int)
    ensures |FilterActionsByStatus(Some(s), Pending, now)| + |FilterActionsByStatus(Some(s), Active, now)|
      + |FilterActionsByStatus(Some(s), Expired, now)| == |s|
  {
    if s != [] {
      StatusFiltersPartition(s[..|s| - 1], now);
    }
  }

  // ---------------------------------------------------------------------------
  // Checks on the data of an action
  // ---------------------------------------------------------------------------

  /** `CreateActionData | UpdateActionData` as far as the check reads it. */
  datatype ActionData = ActionData(name: Field<string>, start: Field<Option<int>>, end: Field<Option<int>>)

  const MsgName := "Nome deve ter pelo menos 3 caracteres"
  const MsgOrder := "Data de início deve ser anterior à data de fim"
  const MsgPast := "Data de início não pode ser no passado"

  /** `new Date(data.x!)`: `undefined` does not parse. */
  function DateOf(f: Field<Option<int>>): Option<int>
  {
    if f.Given? then f.value else None
  }

  predicate NameBad(f: Field<string>)
  {
    f.Undefined? || (f.Given? && |JsTrim(f.value)| < 3)
  }

  /** `validateActionData(data)` at time `now`. */
  function ValidateActionData(d: ActionData, now: int): (errors: seq<string>)
    ensures MsgName in errors <==> NameBad(d.name)
    ensures MsgOrder in errors <==> (!d.start.Missing? && !d.end.Missing?
      && DateOf(d.start).Some? && DateOf(d.end).Some? && DateOf(d.start).value >= DateOf(d.end).value)
    ensures MsgPast in errors <==> (!d.start.Missing? && !d.end.Missing?
      && DateOf(d.start).Some? && DateOf(d.start).value < now)
    ensures forall e :: e in errors ==> e in {MsgName, MsgOrder, MsgPast}
    ensures |errors| <= 3
  {
    var both := !d.start.Missing? && !d.end.Missing?;
    (if NameBad(d.name) then [MsgName] else [])
    + (if both && !Before(DateOf(d.start), DateOf(d.end)) && DateOf(d.start).Some? && DateOf(d.end).Some? then [MsgOrder] else [])
    + (if both && Before(DateOf(d.start), Some(now)) then [MsgPast] else [])
  }

  /** Dates are only compared when both are present, and a date that does not parse
      raises neither date error. */
  lemma ValidateDatesNeedBoth(d: ActionData, now: int)
    requires d.start.Missing? || d.end.Missing? || DateOf(d.start).None?
    ensures ValidateActionData(d, now) == (if NameBad(d.name) then [MsgName] else [])
  {
  }

  // ---------------------------------------------------------------------------
  // Checks on an image file
  // ---------------------------------------------------------------------------

  const AllowedTypes: seq<string> := ["image/png", "image/jpg", "image/jpeg", "image/webp", "image/gif"]
  const MaxSize: nat := 100 * 1024 * 1024

  const MsgType := "Tipo de arquivo não permitido. Use PNG, JPG ou JPEG"
  const MsgSize := "Arquivo muito grande. Máximo 10MB"

  /** `validateImageFile(file)` on the file's MIME type and size in bytes. */
  function ValidateImageFile(fileType: string, size: int): (errors: seq<string>)
    ensures MsgType in errors <==> fileType !in AllowedTypes
    ensures MsgSize in errors <==> size > MaxSize
    ensures |errors| <= 2 && forall e :: e in errors ==> e in {MsgType, MsgSize}
  {
    (if fileType !in AllowedTypes then [MsgType] else [])
    + (if size > MaxSize then [MsgSize] else [])
  }

  /** The limit is 100 MiB, whatever the message says: a file of eleven million
      bytes passes. */
  lemma ImageSizeLimit(fileType: string)
    requires fileType in AllowedTypes
    ensures ValidateImageFile(fileType, 11_000_000) == []
    ensures ValidateImageFile(fileType, MaxSize + 1) == [MsgSize]
  {
  }
}
