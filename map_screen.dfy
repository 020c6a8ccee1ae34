/** The interaction state of the map component
    (src/components/MalolosMap.tsx:183-203, 300-393): the add dialog, the
    coordinates a new pin will get, the pin being edited, and the long-press
    gesture recogniser. Timers are explicit: arming one is a state, and its
    callback running is the `TimerFires` event. */
module MapScreen {
  import opened Wrappers
  import opened PinTypes
  import PinManagement
  import PinDialog
  import JsString

  /** A screen point in pixels. */
  datatype Point = Point(x: real, y: real)

  /** `pressTimerRef`. `Pending` is an armed timer and remembers the add
      mode its callback closed over; `Spent` is a timer that has run, whose
      id the ref still holds because the callback does not clear it. */
  datatype Timer = NoTimer | Pending(addingWhenArmed: bool) | Spent

  /** The long-press threshold in milliseconds (the delay of the timer that
      `TimerFires` models). */
  const LongPressMs: nat := 800

  /** How far, in pixels along either axis, the pointer may wander before
      a pending long press is abandoned. */
  const MoveTolerance: real := 5.0

  function Abs(r: real): real {
    if r < 0.0 then -r else r
  }

  /** The `moveCancel` test: strictly more than the tolerance on an axis. */
  predicate MovedTooFar(start: Point, p: Point) {
    Abs(p.x - start.x) > MoveTolerance || Abs(p.y - start.y) > MoveTolerance
  }

  /** Exactly the tolerance on both axes does not cancel, one step more on
      either axis does. */
  lemma ToleranceIsStrict(start: Point, e: real)
    requires e > 0.0
    ensures !MovedTooFar(start, Point(start.x + MoveTolerance, start.y - MoveTolerance))
    ensures MovedTooFar(start, Point(start.x + MoveTolerance + e, start.y))
    ensures MovedTooFar(start, Point(start.x, start.y - MoveTolerance - e))
  {
  }

  /** `Array.prototype.find` on the id: the first pin with that id. */
  function FindById(pins: seq<Pin>, id: string): (r: Option<Pin>)
    ensures r.Some? <==> id in Ids(pins)
    ensures r.Some? ==> exists k :: 0 <= k < |pins| && pins[k] == r.value && FirstAt(pins, id, k)
  {
    if pins == [] then None
    else if pins[0].id == id then
      assert FirstAt(pins, id, 0);
      Some(pins[0])
    else
      var r := FindById(pins[1..], id);
      assert Ids(pins) == {pins[0].id} + Ids(pins[1..]) by {
        forall x | x in Ids(pins) ensures x in {pins[0].id} + Ids(pins[1..]) {
          var j :| 0 <= j < |pins| && pins[j].id == x;
          if j > 0 { assert pins[1..][j - 1].id == x; }
        }
        forall x | x in Ids(pins[1..]) ensures x in Ids(pins) {
          var j :| 0 <= j < |pins| - 1 && pins[1..][j].id == x;
          assert pins[j + 1].id == x;
        }
      }
      if r.Some? then
        var k :| 0 <= k < |pins[1..]| && pins[1..][k] == r.value && FirstAt(pins[1..], id, k);
        assert FirstAt(pins, id, k + 1);
        r
      else r
  }

  /** `k` is the first index holding `id`. */
  predicate FirstAt(pins: seq<Pin>, id: string, k: int) {
    0 <= k < |pins| && pins[k].id == id && forall j :: 0 <= j < k ==> pins[j].id != id
  }

  /** The initial data the dialog gets from the pin being edited. */
  function EditData(pin: Pin): PinDialog.FormData {
    PinDialog.FormData(pin.title, pin.assignees, pin.targetFamilies)
  }

  /** A dialog opened on a pin and submitted untouched emits exactly when
      the pin's title has visible text, and then emits the pin's own lists
      with its title trimmed; a pin whose title is already trimmed, as every
      pin added through the dialog is, comes back as its edit data. */
  lemma EditDataResubmits(pin: Pin, assigneeInput: string, familyInput: string)
    ensures var d := EditData(pin);
      var s := PinDialog.FormState(d.title, PinDialog.TagField(d.assignees, assigneeInput),
                                   PinDialog.TagField(d.targetFamilies, familyInput));
      && (PinDialog.Submission(s).Some? <==> JsString.Trim(pin.title) != "")
      && (PinDialog.Submission(s).Some? ==> PinDialog.Submission(s).value == d.(title := JsString.Trim(pin.title)))
      && (PinDialog.Submission(s).Some? ==> JsString.Trim(PinDialog.Submission(s).value.title) == PinDialog.Submission(s).value.title)
      && (JsString.Trim(pin.title) == pin.title && pin.title != "" ==> PinDialog.Submission(s) == Some(d))
  {
    JsString.TrimIdempotent(pin.title);
  }

  /** The component's interaction state. */
  class Screen {
    /** `showAddDialog`. */
    var showAddDialog: bool
    /** `pendingCoordinates`: where a new pin will go. */
    var pendingCoordinates: Option<LngLat>
    /** `editingPin`: the pin the dialog is editing. */
    var editingPin: Option<Pin>
    /** `pressTimerRef`. */
    var pressTimer: Timer
    /** `startPointRef`. */
    var startPoint: Option<Point>
    /** `startLngLatRef`. */
    var startLngLat: Option<LngLat>
    /** `longPressFiredRef` (set here and never read by the component). */
    var longPressFired: bool

    constructor ()
      ensures !showAddDialog && pendingCoordinates == None && editingPin == None
      ensures pressTimer == NoTimer && startPoint == None && startLngLat == None && !longPressFired
    {
      showAddDialog := false;
      pendingCoordinates := None;
      editingPin := None;
      pressTimer := NoTimer;
      startPoint := None;
      startLngLat := None;
      longPressFired := false;
    }

    /** `handleClick`: in add mode, open the dialog for a new pin at the
        clicked coordinate; otherwise nothing. */
    method Click(adding: bool, at: LngLat)
      modifies this
      ensures adding ==> showAddDialog && pendingCoordinates == Some(at)
      ensures !adding ==> showAddDialog == old(showAddDialog) && pendingCoordinates == old(pendingCoordinates)
      ensures editingPin == old(editingPin) && pressTimer == old(pressTimer) && startPoint == old(startPoint)
      ensures startLngLat == old(startLngLat) && longPressFired == old(longPressFired)
    {
      if !adding {
        return;
      }
      pendingCoordinates := Some(at);
      showAddDialog := true;
    }

    /** `beginPress`: cancel any timer, clear the fired flag, record where
        the press started (either may be missing from the event) and arm a
        new timer that closes over the current add mode. */
    method BeginPress(adding: bool, point: Option<Point>, at: Option<LngLat>)
      modifies this
      ensures pressTimer == Pending(adding) && !longPressFired
      ensures startPoint == point && startLngLat == at
      ensures showAddDialog == old(showAddDialog) && pendingCoordinates == old(pendingCoordinates)
      ensures editingPin == old(editingPin)
    {
      if pressTimer != NoTimer {
        pressTimer := NoTimer;
      }
      longPressFired := false;
      startPoint := point;
      startLngLat := at;
      pressTimer := Pending(adding);
    }

    /** `endPress`: cancel the timer, if the ref holds one. */
    method EndPress()
      modifies this
      ensures pressTimer == NoTimer
      ensures showAddDialog == old(showAddDialog) && pendingCoordinates == old(pendingCoordinates)
      ensures editingPin == old(editingPin) && startPoint == old(startPoint)
      ensures startLngLat == old(startLngLat) && longPressFired == old(longPressFired)
    {
      if pressTimer != NoTimer {
        pressTimer := NoTimer;
      }
    }

    /** `moveCancel`: cancel the press when the pointer has moved too far
        from the start; nothing without a start point or a current point. */
    method MoveCancel(point: Option<Point>)
      modifies this
      ensures if startPoint.Some? && point.Some? && MovedTooFar(startPoint.value, point.value)
              then pressTimer == NoTimer
              else pressTimer == old(pressTimer)
      ensures showAddDialog == old(showAddDialog) && pendingCoordinates == old(pendingCoordinates)
      ensures editingPin == old(editingPin) && startPoint == old(startPoint)
      ensures startLngLat == old(startLngLat) && longPressFired == old(longPressFired)
    {
      if startPoint.None? {
        return;
      }
      if point.None? {
        return;
      }
      if MovedTooFar(startPoint.value, point.value) {
        EndPress();
      }
    }

    /** The armed timer's callback runs (a cancelled timer never does): it
        marks the long press as fired and, if add mode was on when it was
        armed and a start coordinate was recorded, opens the dialog there. */
    method TimerFires()
      modifies this
      ensures old(pressTimer).Pending? ==> pressTimer == Spent && longPressFired
      ensures old(pressTimer).Pending? && old(pressTimer).addingWhenArmed && old(startLngLat).Some? ==>
        showAddDialog && pendingCoordinates == old(startLngLat)
      ensures !(old(pressTimer).Pending? && old(pressTimer).addingWhenArmed && old(startLngLat).Some?) ==>
        showAddDialog == old(showAddDialog) && pendingCoordinates == old(pendingCoordinates)
      ensures !old(pressTimer).Pending? ==> pressTimer == old(pressTimer) && longPressFired == old(longPressFired)
      ensures editingPin == old(editingPin) && startPoint == old(startPoint) && startLngLat == old(startLngLat)
    {
      if !pressTimer.Pending? {
        return;
      }
      var adding := pressTimer.addingWhenArmed;
      pressTimer := Spent;
      longPressFired := true;
      if !adding {
        return;
      }
      if startLngLat.None? {
        return;
      }
      pendingCoordinates := startLngLat;
      showAddDialog := true;
    }

    /** The popup's rename button: open the dialog on the first pin with
        that id, if there still is one. */
    method RenameClicked(pins: seq<Pin>, pinId: string)
      modifies this
      ensures pinId in Ids(pins) ==> showAddDialog && editingPin == FindById(pins, pinId)
      ensures pinId !in Ids(pins) ==> showAddDialog == old(showAddDialog) && editingPin == old(editingPin)
      ensures editingPin.Some? ==> editingPin.value.id == pinId || editingPin == old(editingPin)
      ensures pendingCoordinates == old(pendingCoordinates) && pressTimer == old(pressTimer)
      ensures startPoint == old(startPoint) && startLngLat == old(startLngLat) && longPressFired == old(longPressFired)
    {
      var current := FindById(pins, pinId);
      if current.None? {
        return;
      }
      editingPin := current;
      showAddDialog := true;
    }

    /** The popup's delete button: delete the pin through the controller;
        the screen state is not touched. */
    method DeleteClicked(ctrl: PinManagement.PinController, pinId: string, failure: Option<string>)
      requires ctrl.Valid()
      modifies ctrl, ctrl.store
      ensures ctrl.Valid() && ctrl.adding == old(ctrl.adding)
      ensures PinManagement.Deleted(old(ctrl.pins), old(ctrl.store.table), ctrl.pins, ctrl.store.table, pinId, failure)
      ensures old(ctrl.InSync()) ==> ctrl.InSync()
    {
      ctrl.DeletePin(pinId, failure);
    }

    /** `handleAddPinSubmit`: with a pin being edited, update it; else with
        pending coordinates, add a pin there; else nothing. The dialog closes
        and the used state is cleared whatever the backend answered. */
    method SubmitDialog(ctrl: PinManagement.PinController, data: PinDialog.FormData,
                        newId: string, failure: Option<string>)
      requires ctrl.Valid()
      modifies this, ctrl, ctrl.store
      ensures ctrl.Valid()
      ensures old(editingPin).Some? ==>
        && !showAddDialog && editingPin == None && pendingCoordinates == old(pendingCoordinates)
        && ctrl.adding == old(ctrl.adding)
        && PinManagement.Updated(old(ctrl.pins), old(ctrl.store.table), ctrl.pins, ctrl.store.table,
                                 old(editingPin).value.id, data.title, data.assignees, data.targetFamilies, failure)
      ensures old(editingPin).None? && old(pendingCoordinates).Some? ==>
        var at := old(pendingCoordinates).value;
        && !showAddDialog && pendingCoordinates == None && editingPin == None
        && PinManagement.Added(old(ctrl.pins), old(ctrl.store.table), old(ctrl.store.clock), old(ctrl.adding),
                               ctrl.pins, ctrl.store.table, ctrl.adding,
                               at.lng, at.lat, data.title, data.assignees, data.targetFamilies, newId, failure)
      ensures old(editingPin).None? && old(pendingCoordinates).None? ==>
        && showAddDialog == old(showAddDialog) && pendingCoordinates == None && editingPin == None
        && ctrl.pins == old(ctrl.pins) && ctrl.adding == old(ctrl.adding) && ctrl.store.table == old(ctrl.store.table)
      ensures old(ctrl.InSync()) ==> ctrl.InSync()
      ensures pressTimer == old(pressTimer) && startPoint == old(startPoint)
      ensures startLngLat == old(startLngLat) && longPressFired == old(longPressFired)
    {
      if editingPin.Some? {
        SubmitEdit(ctrl, data, failure);
      } else if pendingCoordinates.Some? {
        SubmitNew(ctrl, data, newId, failure);
      }
    }

    /** The edit branch of `handleAddPinSubmit`. The dialog fields are
        cleared before the controller call rather than after it: the call
        reads and writes none of them and its failures are caught, so the
        final state is the same. */
    method SubmitEdit(ctrl: PinManagement.PinController, data: PinDialog.FormData, failure: Option<string>)
      requires ctrl.Valid() && editingPin.Some?
      modifies this, ctrl, ctrl.store
      ensures ctrl.Valid()
      ensures !showAddDialog && editingPin == None && pendingCoordinates == old(pendingCoordinates)
      ensures ctrl.adding == old(ctrl.adding)
      ensures PinManagement.Updated(old(ctrl.pins), old(ctrl.store.table), ctrl.pins, ctrl.store.table,
                                    old(editingPin).value.id, data.title, data.assignees, data.targetFamilies, failure)
      ensures old(ctrl.InSync()) ==> ctrl.InSync()
      ensures pressTimer == old(pressTimer) && startPoint == old(startPoint)
      ensures startLngLat == old(startLngLat) && longPressFired == old(longPressFired)
    {
      var id := editingPin.value.id;
      showAddDialog := false;
      editingPin := None;
      ctrl.UpdatePin(id, data.title, data.assignees, data.targetFamilies, failure);
    }

    /** The add branch of `handleAddPinSubmit`, ordered as the edit branch. */
    method SubmitNew(ctrl: PinManagement.PinController, data: PinDialog.FormData,
                     newId: string, failure: Option<string>)
      requires ctrl.Valid() && editingPin.None? && pendingCoordinates.Some?
      modifies this, ctrl, ctrl.store
      ensures ctrl.Valid()
      ensures !showAddDialog && pendingCoordinates == None && editingPin == None
      ensures var at := old(pendingCoordinates).value;
        PinManagement.Added(old(ctrl.pins), old(ctrl.store.table), old(ctrl.store.clock), old(ctrl.adding),
                            ctrl.pins, ctrl.store.table, ctrl.adding,
                            at.lng, at.lat, data.title, data.assignees, data.targetFamilies, newId, failure)
      ensures old(ctrl.InSync()) ==> ctrl.InSync()
      ensures pressTimer == old(pressTimer) && startPoint == old(startPoint)
      ensures startLngLat == old(startLngLat) && longPressFired == old(longPressFired)
    {
      var at := pendingCoordinates.value;
      showAddDialog := false;
      pendingCoordinates := None;
      ctrl.AddPin(at.lng, at.lat, data.title, data.assignees, data.targetFamilies, newId, failure);
    }

    /** `handleAddPinCancel`: close the dialog and forget both targets. */
    method CancelDialog()
      modifies this
      ensures !showAddDialog && pendingCoordinates == None && editingPin == None
      ensures pressTimer == old(pressTimer) && startPoint == old(startPoint)
      ensures startLngLat == old(startLngLat) && longPressFired == old(longPressFired)
    {
      showAddDialog := false;
      pendingCoordinates := None;
      editingPin := None;
    }
  }

  /** A press in add mode held still (every move within the tolerance)
      until the timer runs opens the dialog at the press coordinate. */
  method HeldPressOpensDialog(start: Point, at: LngLat, moves: seq<Point>) returns (s: Screen)
    requires forall i :: 0 <= i < |moves| ==> !MovedTooFar(start, moves[i])
    ensures s.longPressFired && s.showAddDialog && s.pendingCoordinates == Some(at)
    ensures s.pressTimer == Spent
  {
    s := new Screen();
    s.BeginPress(true, Some(start), Some(at));
    for i := 0 to |moves|
      invariant s.pressTimer == Pending(true) && s.startPoint == Some(start) && s.startLngLat == Some(at)
    {
      s.MoveCancel(Some(moves[i]));
    }
    s.TimerFires();
  }

  /** Outside add mode a held press only marks itself as fired. */
  method HeldPressOutsideAddMode(start: Point, at: LngLat, moves: seq<Point>) returns (s: Screen)
    requires forall i :: 0 <= i < |moves| ==> !MovedTooFar(start, moves[i])
    ensures s.longPressFired && !s.showAddDialog && s.pendingCoordinates == None
  {
    s := new Screen();
    s.BeginPress(false, Some(start), Some(at));
    for i := 0 to |moves|
      invariant s.pressTimer == Pending(false) && s.startPoint == Some(start)
      invariant !s.showAddDialog && s.pendingCoordinates == None
    {
      s.MoveCancel(Some(moves[i]));
    }
    s.TimerFires();
  }

  /** A drag that once leaves the tolerance cancels the press: the timer
      never runs and the dialog stays closed. */
  method DragCancelsPress(adding: bool, start: Point, at: LngLat, moves: seq<Point>, k: int) returns (s: Screen)
    requires 0 <= k < |moves| && MovedTooFar(start, moves[k])
    ensures !s.longPressFired && !s.showAddDialog && s.pendingCoordinates == None
    ensures s.pressTimer == NoTimer
  {
    s := new Screen();
    s.BeginPress(adding, Some(start), Some(at));
    for i := 0 to |moves|
      invariant s.startPoint == Some(start) && !s.longPressFired
      invariant !s.showAddDialog && s.pendingCoordinates == None
      invariant s.pressTimer == NoTimer || s.pressTimer == Pending(adding)
      invariant i > k ==> s.pressTimer == NoTimer
    {
      s.MoveCancel(Some(moves[i]));
    }
    s.TimerFires();
  }

  /** A press released before the threshold is an ordinary tap: releasing
      cancels the timer, so it never fires. */
  method TapDoesNotFire(adding: bool, start: Point, at: LngLat) returns (s: Screen)
    ensures !s.longPressFired && !s.showAddDialog && s.pressTimer == NoTimer
  {
    s := new Screen();
    s.BeginPress(adding, Some(start), Some(at));
    s.EndPress();
    s.TimerFires();
  }

  /** A new press re-arms: after a long press has fired, the next press
      clears the flag again and holds a fresh timer. */
  method PressAfterLongPress(start: Point, at: LngLat, next: Point, nextAt: LngLat) returns (s: Screen)
    ensures !s.longPressFired && s.pressTimer == Pending(true)
    ensures s.startPoint == Some(next) && s.startLngLat == Some(nextAt)
    ensures s.showAddDialog && s.pendingCoordinates == Some(at)
  {
    s := new Screen();
    s.BeginPress(true, Some(start), Some(at));
    s.TimerFires();
    s.BeginPress(true, Some(next), Some(nextAt));
  }
}
