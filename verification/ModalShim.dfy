/** The accessibility shim around a wallet modal that other code renders: it patches the dialog as
    soon as it can, observes it for rerenders, and gives the focus back when the modal closes. */
module ModalShim {
  import opened Wrappers

  const MAX_PATCH_ATTEMPTS := 8

  /** Document elements, known by number. */
  type Element = nat

  /** What a patch attempt finds: no modal root, a root without a dialog, or a dialog. */
  datatype View = NoModal | NoDialog | DialogShown(header: Header)

  /** What it finds in the header: no root of its own, no root of a close button, or such a root with
      or without the button. */
  datatype Header = NoHeaderRoot | NoCloseButtonRoot | CloseButtonRoot(button: Option<Element>)

  datatype Root = ModalRoot | HeaderRoot | ButtonRoot

  function CloseButton(header: Header): Option<Element> {
    if header.CloseButtonRoot? then header.button else None
  }

  /** The roots to observe: the modal's, and those of header and button where they are found. */
  function Roots(view: View): set<Root> {
    match view
    case NoModal => {}
    case NoDialog => {ModalRoot}
    case DialogShown(header) =>
      {ModalRoot} + (if header.NoHeaderRoot? then {} else {HeaderRoot})
      + (if header.CloseButtonRoot? then {ButtonRoot} else {})
  }

  /** The calls on the platform, in order, and the marks at which a session opens and a frame runs. */
  datatype Effect =
    | SessionOpened(trigger: Option<Element>)
    | FrameRequested(handle: nat)
    | FrameCancelled(handle: nat)
    | FrameRan(handle: nat)
    | ListenerAdded(button: Element)
    | ListenerRemoved(button: Element)
    | ObserverStarted(roots: set<Root>)
    | ObserverStopped
    | DialogLabelled
    | ButtonLabelled(button: Element)
    | DialogFocused
    | TriggerFocused(element: Element)
    | CloseAsked
    | Unsubscribed

  /** The variables of the shim, with the log of its effects and the next frame handle. */
  datatype Shim = Shim(
    frameHandle: Option<nat>, observer: bool, patchAttempts: nat, dialogFocused: bool, modalOpen: bool,
    returnFocusElement: Option<Element>, wiredCloseButton: Option<Element>, subscribed: bool,
    nextHandle: nat, log: seq<Effect>)

  const INSTALLED := Shim(None, false, 0, false, false, None, None, true, 0, [])

  function Log(s: Shim, effect: Effect): Shim { s.(log := s.log + [effect]) }

  function Unwire(s: Shim): Shim {
    if s.wiredCloseButton.None? then s else Log(s, ListenerRemoved(s.wiredCloseButton.value)).(wiredCloseButton := None)
  }

  function Wire(s: Shim, button: Option<Element>): Shim {
    if s.wiredCloseButton == button then s
    else if button.None? then Unwire(s)
    else Log(Unwire(s), ListenerAdded(button.value)).(wiredCloseButton := button)
  }

  function CancelPending(s: Shim): Shim {
    if s.frameHandle.None? then s else Log(s, FrameCancelled(s.frameHandle.value)).(frameHandle := None)
  }

  function Disconnect(s: Shim): Shim {
    if s.observer then Log(s, ObserverStopped).(observer := false) else s
  }

  function RestoreFocus(s: Shim, connected: bool): Shim {
    var t := s.(returnFocusElement := None);
    if s.returnFocusElement.Some? && connected then Log(t, TriggerFocused(s.returnFocusElement.value)) else t
  }

  function CloseSession(s: Shim, restoreFocus: bool, connected: bool): Shim {
    var t := Wire(Disconnect(CancelPending(s)), None).(patchAttempts := 0, dialogFocused := false, modalOpen := false);
    if restoreFocus then RestoreFocus(t, connected) else t.(returnFocusElement := None)
  }

  function Observe(s: Shim, roots: set<Root>): Shim { Log(Disconnect(s), ObserverStarted(roots)).(observer := true) }

  function FocusOnce(s: Shim): Shim {
    if s.dialogFocused then s else Log(s, DialogFocused).(dialogFocused := true)
  }

  function LabelButton(s: Shim, button: Option<Element>): Shim {
    if button.None? then s else Log(s, ButtonLabelled(button.value))
  }

  /** The attributes, the focus and the listener of a dialog. */
  function PatchDialog(s: Shim, button: Option<Element>): Shim {
    Wire(LabelButton(FocusOnce(Log(s, DialogLabelled)), button), button)
  }

  /** One patch attempt, and whether it found everything. */
  function Patch(s: Shim, view: View): (Shim, bool) {
    if !s.modalOpen then (s, true)
    else
      match view
      case NoModal => (s, false)
      case NoDialog => (Observe(s, Roots(view)), false)
      case DialogShown(header) =>
        (Observe(PatchDialog(s, CloseButton(header)), Roots(view)), CloseButton(header).Some?)
  }

  function Schedule(s: Shim): Shim {
    if !s.modalOpen || s.frameHandle.Some? then s
    else Log(s, FrameRequested(s.nextHandle)).(frameHandle := Some(s.nextHandle), nextHandle := s.nextHandle + 1)
  }

  /** What can happen to the shim. */
  datatype Event =
    | StateOpened(trigger: Option<Element>)
    | StateClosed(connected: bool)
    | Frame(handle: nat, view: View)
    | Mutation
    | Click(button: Element)
    | Dispose(connected: bool)

  function OnOpened(s: Shim, trigger: Option<Element>): Shim {
    Schedule(
      if s.modalOpen then s
      else Log(s, SessionOpened(trigger)).(modalOpen := true, returnFocusElement := trigger, patchAttempts := 0,
                                           dialogFocused := false))
  }

  function OnClosed(s: Shim, connected: bool): Shim {
    if s.modalOpen then CloseSession(s, true, connected) else s
  }

  function OnFrame(s: Shim, handle: nat, view: View): Shim {
    var (t, complete) := Patch(Log(s, FrameRan(handle)).(frameHandle := None, patchAttempts := s.patchAttempts + 1),
        view);
    if !complete && t.patchAttempts < MAX_PATCH_ATTEMPTS then Schedule(t) else t
  }

  function OnMutation(s: Shim): Shim { Schedule(s.(patchAttempts := 0)) }

  function OnDispose(s: Shim, connected: bool): Shim {
    Log(CloseSession(s, s.modalOpen, connected), Unsubscribed).(subscribed := false)
  }

  function Next(s: Shim, e: Event): Shim {
    match e
    case StateOpened(trigger) => OnOpened(s, trigger)
    case StateClosed(connected) => OnClosed(s, connected)
    case Frame(handle, view) => OnFrame(s, handle, view)
    case Mutation => OnMutation(s)
    case Click(_) => Log(s, CloseAsked)
    case Dispose(connected) => OnDispose(s, connected)
  }

  // What the platform knows after the calls so far.

  function PendingAfter(before: set<nat>, e: Effect): set<nat> {
    match e
    case FrameRequested(h) => before + {h}
    case FrameCancelled(h) => before - {h}
    case FrameRan(h) => before - {h}
    case _ => before
  }

  function PendingFrames(log: seq<Effect>): set<nat> {
    if log == [] then {} else PendingAfter(PendingFrames(log[..|log| - 1]), log[|log| - 1])
  }

  function ListeningAfter(before: set<Element>, e: Effect): set<Element> {
    match e
    case ListenerAdded(b) => before + {b}
    case ListenerRemoved(b) => before - {b}
    case _ => before
  }

  function Listening(log: seq<Effect>): set<Element> {
    if log == [] then {} else ListeningAfter(Listening(log[..|log| - 1]), log[|log| - 1])
  }

  function ObservedAfter(before: set<Root>, e: Effect): set<Root> {
    match e
    case ObserverStarted(roots) => before + roots
    case ObserverStopped => {}
    case _ => before
  }

  /** The roots under observation: a start adds roots, a stop drops all of them. */
  function Observed(log: seq<Effect>): set<Root> {
    if log == [] then {} else ObservedAfter(Observed(log[..|log| - 1]), log[|log| - 1])
  }

  /** The trigger recorded when the latest session opened. */
  function LatestTrigger(log: seq<Effect>): Option<Element> {
    if log == [] then None
    else
      match log[|log| - 1]
      case SessionOpened(trigger) => trigger
      case _ => LatestTrigger(log[..|log| - 1])
  }

  /** Frames run only when pending, clicks arrive only from a button that is listened to, mutations
      only from a started observer, and state changes only while subscribed. */
  predicate Enabled(s: Shim, e: Event) {
    match e
    case StateOpened(_) => s.subscribed
    case StateClosed(_) => s.subscribed
    case Frame(handle, _) => handle in PendingFrames(s.log)
    case Mutation => Observed(s.log) != {}
    case Click(button) => button in Listening(s.log)
    case Dispose(_) => true
  }

  ghost predicate IsRun(s: Shim, events: seq<Event>)
    decreases |events|
  {
    events == [] || (Enabled(s, events[0]) && IsRun(Next(s, events[0]), events[1..]))
  }

  ghost function After(s: Shim, events: seq<Event>): Shim
    decreases |events|
  {
    if events == [] then s else After(Next(s, events[0]), events[1..])
  }

  function OptionAsSet<T>(value: Option<T>): set<T> { if value.Some? then {value.value} else {} }

  predicate IsDialogFocus(e: Effect) { e.DialogFocused? }

  predicate IsTriggerFocus(e: Effect) { e.TriggerFocused? }

  /** No such effect since the latest session opened. */
  ghost predicate NoneThisSession(log: seq<Effect>, kind: Effect -> bool) {
    forall i | 0 <= i < |log| && kind(log[i]) :: exists k :: i < k < |log| && log[k].SessionOpened?
  }

  /** Between two such effects a session opens. */
  ghost predicate OncePerSession(log: seq<Effect>, kind: Effect -> bool) {
    forall i, j | 0 <= i < j < |log| && kind(log[i]) && kind(log[j]) ::
      exists k :: i < k < j && log[k].SessionOpened?
  }

  /** Focus goes back only to the trigger of the session it ends. */
  ghost predicate OwnTrigger(log: seq<Effect>) {
    forall j | 0 <= j < |log| && log[j].TriggerFocused? :: LatestTrigger(log[..j]) == Some(log[j].element)
  }

  /** The dialog takes the focus, and a button a listener, only after they were labelled. */
  ghost predicate LabelledFirst(log: seq<Effect>) {
    forall j | 0 <= j < |log| :: LabelledBy(log[..j], log[j])
  }

  ghost predicate LabelledBy(log: seq<Effect>, e: Effect) {
    (e.DialogFocused? ==> DialogLabelled in log) && (e.ListenerAdded? ==> ButtonLabelled(e.button) in log)
  }

  /** What the shim remembers is what the platform has. */
  ghost predicate InStep(s: Shim) {
    && PendingFrames(s.log) == OptionAsSet(s.frameHandle)
    && (s.frameHandle.Some? ==> s.frameHandle.value < s.nextHandle)
    && Listening(s.log) == OptionAsSet(s.wiredCloseButton)
    && (s.observer <==> Observed(s.log) != {})
  }

  ghost predicate ClosedIsClean(s: Shim) {
    !s.modalOpen ==> s.frameHandle.None? && !s.observer && s.wiredCloseButton.None? && s.returnFocusElement.None?
  }

  ghost predicate FocusesWell(s: Shim) {
    && OncePerSession(s.log, IsDialogFocus) && OncePerSession(s.log, IsTriggerFocus) && OwnTrigger(s.log)
    && LabelledFirst(s.log)
    && (s.modalOpen ==> NoneThisSession(s.log, IsTriggerFocus) && LatestTrigger(s.log) == s.returnFocusElement)
    && (s.modalOpen && !s.dialogFocused ==> NoneThisSession(s.log, IsDialogFocus))
  }

  ghost predicate Invariant(s: Shim) { InStep(s) && ClosedIsClean(s) && FocusesWell(s) }

  /** How one more effect changes what the log says. */
  lemma LogStep(log: seq<Effect>, e: Effect)
    ensures PendingFrames(log + [e]) == PendingAfter(PendingFrames(log), e)
    ensures Listening(log + [e]) == ListeningAfter(Listening(log), e)
    ensures Observed(log + [e]) == ObservedAfter(Observed(log), e)
    ensures LatestTrigger(log + [e]) == (if e.SessionOpened? then e.trigger else LatestTrigger(log))
  {
    assert (log + [e])[..|log|] == log;
  }

  lemma FocusStep(log: seq<Effect>, e: Effect, kind: Effect -> bool)
    requires OncePerSession(log, kind) && (kind(e) ==> NoneThisSession(log, kind))
    ensures OncePerSession(log + [e], kind)
    ensures e.SessionOpened? && !kind(e) ==> NoneThisSession(log + [e], kind)
    ensures !kind(e) && NoneThisSession(log, kind) ==> NoneThisSession(log + [e], kind)
  {
    var more := log + [e];
    forall i, j | 0 <= i < j < |more| && kind(more[i]) && kind(more[j])
      ensures exists k :: i < k < j && more[k].SessionOpened?
    {
      if j < |log| {
        var k :| i < k < j && log[k].SessionOpened?;
        assert more[k].SessionOpened?;
      } else {
        var k :| i < k < |log| && log[k].SessionOpened?;
        assert more[k].SessionOpened?;
      }
    }
    if e.SessionOpened? {
      assert more[|log|].SessionOpened?;
    } else if !kind(e) && NoneThisSession(log, kind) {
      forall i | 0 <= i < |more| && kind(more[i]) ensures exists k :: i < k < |more| && more[k].SessionOpened? {
        var k :| i < k < |log| && log[k].SessionOpened?;
        assert more[k].SessionOpened?;
      }
    }
  }

  lemma OwnTriggerStep(log: seq<Effect>, e: Effect)
    requires OwnTrigger(log) && (e.TriggerFocused? ==> LatestTrigger(log) == Some(e.element))
    ensures OwnTrigger(log + [e])
  {
    var more := log + [e];
    forall j | 0 <= j < |more| && more[j].TriggerFocused? ensures LatestTrigger(more[..j]) == Some(more[j].element) {
      assert more[..j] == log[..j];
      assert log[..|log|] == log;
    }
  }

  lemma LabelStep(log: seq<Effect>, e: Effect)
    requires LabelledFirst(log) && LabelledBy(log, e)
    ensures LabelledFirst(log + [e])
  {
    hide LabelledBy;
    var more := log + [e];
    forall j | 0 <= j < |more| ensures LabelledBy(more[..j], more[j]) {
      assert more[..j] == log[..j];
      assert log[..|log|] == log;
    }
  }

  /** Logging an effect that is no opening and moves no focus. */
  lemma LogKeepsFocus(s: Shim, e: Effect)
    requires FocusesWell(s) && !e.SessionOpened? && !e.DialogFocused? && !e.TriggerFocused?
    requires e.ListenerAdded? ==> ButtonLabelled(e.button) in s.log
    ensures FocusesWell(Log(s, e))
  {
    hide OncePerSession, NoneThisSession, OwnTrigger, LatestTrigger, LabelledFirst;
    LabelStep(s.log, e);
    LogStep(s.log, e);
    FocusStep(s.log, e, IsDialogFocus);
    FocusStep(s.log, e, IsTriggerFocus);
    OwnTriggerStep(s.log, e);
  }

  lemma WireKeeps(s: Shim, button: Option<Element>)
    requires InStep(s) && FocusesWell(s) && (button.Some? ==> ButtonLabelled(button.value) in s.log)
    ensures InStep(Wire(s, button)) && FocusesWell(Wire(s, button))
  {
    hide OncePerSession, NoneThisSession, OwnTrigger, LatestTrigger, LabelledFirst, PendingFrames, Listening,
         Observed;
    if s.wiredCloseButton == button { return; }
    var t := s;
    if s.wiredCloseButton.Some? {
      LogStep(s.log, ListenerRemoved(s.wiredCloseButton.value));
      LogKeepsFocus(s, ListenerRemoved(s.wiredCloseButton.value));
      t := Unwire(s);
    }
    assert Listening(t.log) == {};
    if button.Some? {
      LogStep(t.log, ListenerAdded(button.value));
      LogKeepsFocus(t, ListenerAdded(button.value));
    }
  }

  lemma CancelKeeps(s: Shim)
    requires InStep(s) && FocusesWell(s)
    ensures InStep(CancelPending(s)) && FocusesWell(CancelPending(s))
  {
    hide OncePerSession, NoneThisSession, OwnTrigger, LatestTrigger, LabelledFirst, PendingFrames, Listening,
         Observed;
    if s.frameHandle.Some? {
      LogStep(s.log, FrameCancelled(s.frameHandle.value));
      LogKeepsFocus(s, FrameCancelled(s.frameHandle.value));
    }
  }

  lemma DisconnectKeeps(s: Shim)
    requires InStep(s) && FocusesWell(s)
    ensures InStep(Disconnect(s)) && FocusesWell(Disconnect(s))
  {
    hide OncePerSession, NoneThisSession, OwnTrigger, LatestTrigger, LabelledFirst, PendingFrames, Listening,
         Observed;
    LogStep(s.log, ObserverStopped);
    LogKeepsFocus(s, ObserverStopped);
  }

  lemma ObserveKeeps(s: Shim, roots: set<Root>)
    requires InStep(s) && FocusesWell(s) && roots != {}
    ensures InStep(Observe(s, roots)) && FocusesWell(Observe(s, roots)) && Observed(Observe(s, roots).log) == roots
  {
    hide OncePerSession, NoneThisSession, OwnTrigger, LatestTrigger, LabelledFirst, PendingFrames, Listening,
         Observed;
    DisconnectKeeps(s);
    LogStep(Disconnect(s).log, ObserverStarted(roots));
    LogKeepsFocus(Disconnect(s), ObserverStarted(roots));
  }

  lemma ScheduleKeeps(s: Shim)
    requires InStep(s) && FocusesWell(s)
    ensures InStep(Schedule(s)) && FocusesWell(Schedule(s))
  {
    hide OncePerSession, NoneThisSession, OwnTrigger, LatestTrigger, LabelledFirst, PendingFrames, Listening,
         Observed;
    LogStep(s.log, FrameRequested(s.nextHandle));
    LogKeepsFocus(s, FrameRequested(s.nextHandle));
  }

  lemma FocusKeeps(s: Shim)
    requires InStep(s) && FocusesWell(s) && s.modalOpen && DialogLabelled in s.log
    ensures InStep(FocusOnce(s)) && FocusesWell(FocusOnce(s))
  {
    hide OncePerSession, NoneThisSession, OwnTrigger, LatestTrigger, LabelledFirst, PendingFrames, Listening,
         Observed;
    if !s.dialogFocused {
      LogStep(s.log, DialogFocused);
      FocusStep(s.log, DialogFocused, IsDialogFocus);
      FocusStep(s.log, DialogFocused, IsTriggerFocus);
      OwnTriggerStep(s.log, DialogFocused);
      LabelStep(s.log, DialogFocused);
    }
  }

  lemma PatchDialogKeeps(s: Shim, button: Option<Element>)
    requires InStep(s) && FocusesWell(s) && s.modalOpen
    ensures InStep(PatchDialog(s, button)) && FocusesWell(PatchDialog(s, button))
  {
    hide OncePerSession, NoneThisSession, OwnTrigger, LatestTrigger, LabelledFirst, PendingFrames, Listening,
         Observed, FocusOnce, Wire;
    LogStep(s.log, DialogLabelled);
    LogKeepsFocus(s, DialogLabelled);
    FocusKeeps(Log(s, DialogLabelled));
    var t := FocusOnce(Log(s, DialogLabelled));
    if button.Some? {
      LogStep(t.log, ButtonLabelled(button.value));
      LogKeepsFocus(t, ButtonLabelled(button.value));
    }
    WireKeeps(LabelButton(t, button), button);
  }

  lemma PatchDialogFields(s: Shim, button: Option<Element>)
    ensures var t := PatchDialog(s, button);
            && t.frameHandle == s.frameHandle && t.patchAttempts == s.patchAttempts && t.modalOpen == s.modalOpen
            && t.wiredCloseButton == button
  {}

  lemma RestoreKeeps(s: Shim, connected: bool)
    requires InStep(s) && !s.modalOpen
    requires OncePerSession(s.log, IsDialogFocus) && OncePerSession(s.log, IsTriggerFocus) && OwnTrigger(s.log)
    requires LabelledFirst(s.log)
    requires NoneThisSession(s.log, IsTriggerFocus) && LatestTrigger(s.log) == s.returnFocusElement
    ensures InStep(RestoreFocus(s, connected)) && FocusesWell(RestoreFocus(s, connected))
  {
    hide OncePerSession, NoneThisSession, OwnTrigger, LatestTrigger, LabelledFirst, PendingFrames, Listening,
         Observed;
    if s.returnFocusElement.Some? && connected {
      var e := TriggerFocused(s.returnFocusElement.value);
      LogStep(s.log, e);
      FocusStep(s.log, e, IsDialogFocus);
      FocusStep(s.log, e, IsTriggerFocus);
      OwnTriggerStep(s.log, e);
      LabelStep(s.log, e);
    }
  }

  /** Closing ends with a clean shim; focus may be restored only at the end of a session. */
  lemma CloseKeeps(s: Shim, restoreFocus: bool, connected: bool)
    requires Invariant(s) && (restoreFocus ==> s.modalOpen)
    ensures Invariant(CloseSession(s, restoreFocus, connected)) && !CloseSession(s, restoreFocus, connected).modalOpen
    ensures CloseSession(s, restoreFocus, connected).frameHandle.None?
  {
    hide OncePerSession, NoneThisSession, OwnTrigger, LatestTrigger, LabelledFirst, PendingFrames, Listening,
         Observed;
    CancelKeeps(s);
    DisconnectKeeps(CancelPending(s));
    WireKeeps(Disconnect(CancelPending(s)), None);
    if restoreFocus {
      RestoreKeeps(Wire(Disconnect(CancelPending(s)), None).(patchAttempts := 0, dialogFocused := false,
                                                                              modalOpen := false),
                   connected);
    }
  }

  /** A patch attempt on an open modal leaves exactly the roots it found under observation. */
  lemma PatchKeeps(s: Shim, view: View)
    requires Invariant(s)
    ensures Invariant(Patch(s, view).0)
    ensures Patch(s, view).0.frameHandle == s.frameHandle && Patch(s, view).0.patchAttempts == s.patchAttempts
    ensures s.modalOpen && !view.NoModal? ==> Observed(Patch(s, view).0.log) == Roots(view)
    ensures s.modalOpen && view.DialogShown? ==> Patch(s, view).0.wiredCloseButton == CloseButton(view.header)
  {
    hide OncePerSession, NoneThisSession, OwnTrigger, LatestTrigger, LabelledFirst, PendingFrames, Listening,
         Observed, PatchDialog;
    if s.modalOpen {
      match view
      case NoModal =>
      case NoDialog => ObserveKeeps(s, Roots(view));
      case DialogShown(header) =>
        PatchDialogKeeps(s, CloseButton(header));
        PatchDialogFields(s, CloseButton(header));
        assert ModalRoot in Roots(view);
        ObserveKeeps(PatchDialog(s, CloseButton(header)), Roots(view));
    }
  }

  lemma OpenedKeeps(s: Shim, trigger: Option<Element>)
    requires Invariant(s)
    ensures Invariant(OnOpened(s, trigger))
  {
    hide OncePerSession, NoneThisSession, OwnTrigger, LatestTrigger, LabelledFirst, PendingFrames, Listening,
         Observed;
    var e := SessionOpened(trigger);
    LogStep(s.log, e);
    FocusStep(s.log, e, IsDialogFocus);
    FocusStep(s.log, e, IsTriggerFocus);
    OwnTriggerStep(s.log, e);
    LabelStep(s.log, e);
    var t := if s.modalOpen then s
             else Log(s, e).(modalOpen := true, returnFocusElement := trigger, patchAttempts := 0,
                 dialogFocused := false);
    ScheduleKeeps(t);
  }

  lemma FrameKeeps(s: Shim, handle: nat, view: View)
    requires Invariant(s) && handle in PendingFrames(s.log)
    ensures Invariant(OnFrame(s, handle, view))
  {
    hide OncePerSession, NoneThisSession, OwnTrigger, LatestTrigger, LabelledFirst, PendingFrames, Listening,
         Observed;
    RanFrameHolds(s, handle);
    hide InStep, ClosedIsClean, FocusesWell, Patch;
    var t := Log(s, FrameRan(handle)).(frameHandle := None, patchAttempts := s.patchAttempts + 1);
    PatchKeeps(t, view);
    ScheduledHolds(Patch(t, view).0);
  }

  lemma RanFrameHolds(s: Shim, handle: nat)
    requires Invariant(s) && handle in PendingFrames(s.log)
    ensures Invariant(Log(s, FrameRan(handle)).(frameHandle := None, patchAttempts := s.patchAttempts + 1))
  {
    hide OncePerSession, NoneThisSession, OwnTrigger, LatestTrigger, LabelledFirst, PendingFrames, Listening,
         Observed;
    LogStep(s.log, FrameRan(handle));
    LogKeepsFocus(s, FrameRan(handle));
  }

  lemma ScheduledHolds(s: Shim)
    requires Invariant(s)
    ensures Invariant(Schedule(s))
  {
    hide OncePerSession, NoneThisSession, OwnTrigger, LatestTrigger, LabelledFirst, PendingFrames, Listening,
         Observed;
    ScheduleKeeps(s);
  }

  lemma NextKeeps(s: Shim, e: Event)
    requires Invariant(s) && Enabled(s, e)
    ensures Invariant(Next(s, e))
  {
    hide OncePerSession, NoneThisSession, OwnTrigger, LatestTrigger, LabelledFirst, PendingFrames, Listening,
         Observed;
    match e
    case StateOpened(trigger) => OpenedKeeps(s, trigger);
    case StateClosed(connected) =>
      if s.modalOpen { CloseKeeps(s, true, connected); }
    case Frame(handle, view) => FrameKeeps(s, handle, view);
    case Mutation => ScheduleKeeps(s.(patchAttempts := 0));
    case Click(_) =>
      LogStep(s.log, CloseAsked);
      LogKeepsFocus(s, CloseAsked);
    case Dispose(connected) =>
      CloseKeeps(s, s.modalOpen, connected);
      LogStep(CloseSession(s, s.modalOpen, connected).log, Unsubscribed);
      LogKeepsFocus(CloseSession(s, s.modalOpen, connected), Unsubscribed);
  }

  lemma {:induction false} RunKeeps(s: Shim, events: seq<Event>)
    requires Invariant(s) && IsRun(s, events)
    ensures Invariant(After(s, events))
    decreases |events|
  {
    if events == [] {
    } else {
      NextKeeps(s, events[0]);
      RunKeeps(Next(s, events[0]), events[1..]);
    }
  }

  /** In every run at most one frame is pending, the click listener is on exactly the wired button,
      and a closed modal has no pending frame, no observer and no listener. */
  lemma ClosedLeavesNothing(events: seq<Event>)
    requires IsRun(INSTALLED, events)
    ensures var s := After(INSTALLED, events);
            && PendingFrames(s.log) == OptionAsSet(s.frameHandle) && |PendingFrames(s.log)| <= 1
            && Listening(s.log) == OptionAsSet(s.wiredCloseButton)
            && (!s.modalOpen ==> PendingFrames(s.log) == {} && Listening(s.log) == {} && Observed(s.log) == {})
  {
    RunKeeps(INSTALLED, events);
  }

  /** In every run the dialog takes the focus at most once a session, and a session gives it back at
      most once, to the element that was its trigger when it opened. */
  lemma FocusMovesOncePerSession(events: seq<Event>)
    requires IsRun(INSTALLED, events)
    ensures var log := After(INSTALLED, events).log;
            OncePerSession(log, IsDialogFocus) && OncePerSession(log, IsTriggerFocus) && OwnTrigger(log)
  {
    RunKeeps(INSTALLED, events);
  }

  /** In every run the dialog is labelled before it takes the focus, and a close button before it is
      listened to. */
  lemma LabelledBeforeUse(events: seq<Event>)
    requires IsRun(INSTALLED, events)
    ensures LabelledFirst(After(INSTALLED, events).log)
  {
    RunKeeps(INSTALLED, events);
  }

  // What a bystander can tell from the events alone.

  /** Whether the modal is open, how many frames ran since the opening or the latest mutation, whether a frame
      is asked for, which roots and button the latest frame to find any has found, and whether a frame has
      found the dialog. */
  datatype Seen = Seen(
    open: bool, frames: nat, asked: bool, roots: set<Root>, button: Option<Element>, dialog: bool)

  const NOTHING_SEEN := Seen(false, 0, false, {}, None, false)

  predicate IsRootIn(root: Root, view: View) {
    match root
    case ModalRoot => !view.NoModal?
    case HeaderRoot => view.DialogShown? && !view.header.NoHeaderRoot?
    case ButtonRoot => view.DialogShown? && view.header.CloseButtonRoot?
  }

  /** A frame is asked for at every opening and mutation, and by a frame that misses the button while fewer
      than eight have run. */
  function SeenAfter(before: Seen, e: Event): Seen {
    match e
    case StateOpened(_) => if before.open then before.(asked := true) else Seen(true, 0, true, {}, None, false)
    case StateClosed(_) => NOTHING_SEEN
    case Dispose(_) => NOTHING_SEEN
    case Click(_) => before
    case Mutation => before.(frames := 0, asked := true)
    case Frame(_, view) =>
      var button :=
        if view.DialogShown? && view.header.CloseButtonRoot? then view.header.button else None;
      Seen(before.open, before.frames + 1, button.None? && before.frames + 1 < 8,
           if view.NoModal? then before.roots
           else set r | r in {ModalRoot, HeaderRoot, ButtonRoot} && IsRootIn(r, view),
           if view.DialogShown? then button else before.button, before.dialog || view.DialogShown?)
  }

  ghost function SeenIn(before: Seen, events: seq<Event>): Seen
    decreases |events|
  {
    if events == [] then before else SeenIn(SeenAfter(before, events[0]), events[1..])
  }

  ghost predicate Follows(s: Shim, seen: Seen) {
    && s.modalOpen == seen.open && s.patchAttempts == seen.frames && s.frameHandle.Some? == seen.asked
    && Observed(s.log) == seen.roots && s.wiredCloseButton == seen.button && (!seen.open ==> seen == NOTHING_SEEN)
    && s.dialogFocused == seen.dialog && (seen.dialog ==> !NoneThisSession(s.log, IsDialogFocus))
  }

  /** More effects, but neither a new session nor the end of one. */
  ghost predicate Grows(a: seq<Effect>, b: seq<Effect>) {
    a <= b && forall k | |a| <= k < |b| :: !b[k].SessionOpened? && !b[k].TriggerFocused?
  }

  lemma FocusStays(a: seq<Effect>, b: seq<Effect>)
    requires Grows(a, b) && !NoneThisSession(a, IsDialogFocus)
    ensures !NoneThisSession(b, IsDialogFocus)
  {
    var i :| 0 <= i < |a| && IsDialogFocus(a[i]) && !exists k :: i < k < |a| && a[k].SessionOpened?;
    assert IsDialogFocus(b[i]);
    assert forall k | i < k < |b| :: !b[k].SessionOpened?;
  }

  lemma GrowsOn(a: seq<Effect>, b: seq<Effect>, c: seq<Effect>)
    requires Grows(a, b) && Grows(b, c)
    ensures Grows(a, c)
  {
    assert forall k | |a| <= k < |b| :: c[k] == b[k];
  }

  lemma SameGrows(log: seq<Effect>)
    ensures Grows(log, log)
  {}

  lemma OneEffectGrows(log: seq<Effect>, e: Effect)
    requires !e.SessionOpened? && !e.TriggerFocused?
    ensures Grows(log, log + [e])
  {}

  lemma WireGrows(s: Shim, button: Option<Element>)
    ensures Grows(s.log, Wire(s, button).log)
  {
    hide Grows;
    SameGrows(s.log);
    var t := Unwire(s);
    if s.wiredCloseButton.Some? { OneEffectGrows(s.log, ListenerRemoved(s.wiredCloseButton.value)); }
    if button.Some? {
      OneEffectGrows(t.log, ListenerAdded(button.value));
      GrowsOn(s.log, t.log, Log(t, ListenerAdded(button.value)).log);
    }
  }

  lemma DisconnectGrows(s: Shim)
    ensures Grows(s.log, Disconnect(s).log)
  {
    hide Grows;
    SameGrows(s.log);
    OneEffectGrows(s.log, ObserverStopped);
  }

  lemma ObserveGrows(s: Shim, roots: set<Root>)
    ensures Grows(s.log, Observe(s, roots).log) && Observe(s, roots).dialogFocused == s.dialogFocused
  {
    hide Grows;
    DisconnectGrows(s);
    OneEffectGrows(Disconnect(s).log, ObserverStarted(roots));
    GrowsOn(s.log, Disconnect(s).log, Observe(s, roots).log);
  }

  lemma ScheduleGrows(s: Shim)
    ensures Grows(s.log, Schedule(s).log)
  {
    hide Grows;
    SameGrows(s.log);
    OneEffectGrows(s.log, FrameRequested(s.nextHandle));
  }

  lemma CancelGrows(s: Shim)
    ensures Grows(s.log, CancelPending(s).log)
  {
    hide Grows;
    SameGrows(s.log);
    if s.frameHandle.Some? { OneEffectGrows(s.log, FrameCancelled(s.frameHandle.value)); }
  }

  lemma FocusGrows(s: Shim)
    ensures Grows(s.log, FocusOnce(Log(s, DialogLabelled)).log)
  {
    hide Grows;
    var labelled := s.log + [DialogLabelled];
    OneEffectGrows(s.log, DialogLabelled);
    OneEffectGrows(labelled, DialogFocused);
    GrowsOn(s.log, labelled, labelled + [DialogFocused]);
  }

  lemma LabelGrows(s: Shim, button: Option<Element>)
    ensures Grows(s.log, LabelButton(s, button).log)
  {
    hide Grows;
    SameGrows(s.log);
    if button.Some? { OneEffectGrows(s.log, ButtonLabelled(button.value)); }
  }

  lemma PatchGrows(s: Shim, view: View)
    ensures Grows(s.log, Patch(s, view).0.log)
    ensures s.modalOpen && view.DialogShown? && !s.dialogFocused ==>
              !NoneThisSession(Patch(s, view).0.log, IsDialogFocus)
    ensures Patch(s, view).0.dialogFocused == (s.dialogFocused || (s.modalOpen && view.DialogShown?))
  {
    hide Grows, NoneThisSession, FocusOnce, Wire, Observe, LabelButton;
    SameGrows(s.log);
    if s.modalOpen {
      match view
      case NoModal =>
      case NoDialog => ObserveGrows(s, Roots(view));
      case DialogShown(header) =>
        FocusGrows(s);
        RestGrows(FocusOnce(Log(s, DialogLabelled)), header);
        GrowsOn(s.log, FocusOnce(Log(s, DialogLabelled)).log, Patch(s, view).0.log);
        DialogHasFocus(s, header);
    }
  }

  lemma RestGrows(s: Shim, header: Header)
    ensures var button := CloseButton(header);
            Grows(s.log, Observe(Wire(LabelButton(s, button), button), Roots(DialogShown(header))).log)
  {
    hide Grows, Wire, Observe, LabelButton;
    var button := CloseButton(header);
    var labelled := LabelButton(s, button);
    var wired := Wire(labelled, button);
    LabelGrows(s, button);
    WireGrows(labelled, button);
    ObserveGrows(wired, Roots(DialogShown(header)));
    GrowsOn(s.log, labelled.log, wired.log);
    GrowsOn(s.log, wired.log, Observe(wired, Roots(DialogShown(header))).log);
  }

  lemma DialogHasFocus(s: Shim, header: Header)
    requires s.modalOpen
    ensures var t := Patch(s, DialogShown(header)).0;
            t.dialogFocused && (!s.dialogFocused ==> !NoneThisSession(t.log, IsDialogFocus))
  {
    hide Grows, NoneThisSession;
    if !s.dialogFocused {
      var focused := FocusOnce(Log(s, DialogLabelled));
      JustFocused(s.log + [DialogLabelled]);
      RestGrows(focused, header);
      FocusStays(focused.log, Patch(s, DialogShown(header)).0.log);
    }
  }

  lemma JustFocused(log: seq<Effect>)
    ensures !NoneThisSession(log + [DialogFocused], IsDialogFocus)
  {
    assert IsDialogFocus((log + [DialogFocused])[|log|]);
  }

  lemma ScheduleFollows(s: Shim)
    ensures Observed(Schedule(s).log) == Observed(s.log)
    ensures !NoneThisSession(s.log, IsDialogFocus) ==> !NoneThisSession(Schedule(s).log, IsDialogFocus)
  {
    hide Observed, NoneThisSession;
    LogStep(s.log, FrameRequested(s.nextHandle));
    if !NoneThisSession(s.log, IsDialogFocus) {
      ScheduleGrows(s);
      FocusStays(s.log, Schedule(s).log);
    }
  }

  lemma FrameFollows(s: Shim, seen: Seen, handle: nat, view: View)
    requires Invariant(s) && handle in PendingFrames(s.log) && Follows(s, seen)
    ensures Follows(OnFrame(s, handle, view), SeenAfter(seen, Frame(handle, view)))
  {
    hide OncePerSession, NoneThisSession, OwnTrigger, LatestTrigger, LabelledFirst, PendingFrames, Listening,
         Observed, PatchDialog, Observe, Grows;
    RanFrameHolds(s, handle);
    LogStep(s.log, FrameRan(handle));
    var t := Log(s, FrameRan(handle)).(frameHandle := None, patchAttempts := s.patchAttempts + 1);
    PatchKeeps(t, view);
    PatchLeaves(t, view);
    PatchGrows(t, view);
    if seen.dialog {
      OneEffectGrows(s.log, FrameRan(handle));
      GrowsOn(s.log, t.log, Patch(t, view).0.log);
      FocusStays(s.log, Patch(t, view).0.log);
    }
    ScheduleFollows(Patch(t, view).0);
    assert !view.NoModal? ==> Roots(view) == set r | r in {ModalRoot, HeaderRoot, ButtonRoot} && IsRootIn(r, view);
  }

  lemma PatchLeaves(s: Shim, view: View)
    ensures Patch(s, view).0.modalOpen == s.modalOpen
    ensures !view.DialogShown? ==> Patch(s, view).0.wiredCloseButton == s.wiredCloseButton
    ensures view.NoModal? ==> Patch(s, view).0 == s
  {}

  /** Closing leaves nothing to be seen. */
  lemma CloseFollows(s: Shim, restoreFocus: bool, connected: bool)
    requires Invariant(s) && (restoreFocus ==> s.modalOpen)
    ensures Follows(CloseSession(s, restoreFocus, connected), NOTHING_SEEN)
  {
    hide PendingFrames, Listening, Observed, FocusesWell, CancelPending, Disconnect, Wire;
    CloseKeeps(s, restoreFocus, connected);
  }

  lemma NextFollows(s: Shim, e: Event, seen: Seen)
    requires Invariant(s) && Enabled(s, e) && Follows(s, seen)
    ensures Follows(Next(s, e), SeenAfter(seen, e))
  {
    hide OncePerSession, NoneThisSession, OwnTrigger, LatestTrigger, LabelledFirst, PendingFrames, Listening,
         Observed, CloseSession, OnFrame, FocusesWell;
    match e
    case StateOpened(trigger) =>
      LogStep(s.log, SessionOpened(trigger));
      ScheduleFollows(s);
      ScheduleFollows(Log(s, SessionOpened(trigger)).(modalOpen := true, returnFocusElement := trigger,
                                                      patchAttempts := 0, dialogFocused := false));
    case StateClosed(connected) =>
      if s.modalOpen { CloseFollows(s, true, connected); }
    case Frame(handle, view) => FrameFollows(s, seen, handle, view);
    case Mutation => ScheduleFollows(s.(patchAttempts := 0));
    case Click(_) =>
      LogStep(s.log, CloseAsked);
      OneEffectGrows(s.log, CloseAsked);
      if seen.dialog { FocusStays(s.log, s.log + [CloseAsked]); }
    case Dispose(connected) =>
      CloseFollows(s, s.modalOpen, connected);
      LogStep(CloseSession(s, s.modalOpen, connected).log, Unsubscribed);
  }

  lemma {:induction false} RunFollows(s: Shim, events: seq<Event>, seen: Seen)
    requires Invariant(s) && IsRun(s, events) && Follows(s, seen)
    ensures Follows(After(s, events), SeenIn(seen, events))
    decreases |events|
  {
    hide Invariant, Enabled, Next, Follows, SeenAfter;
    if events == [] {
    } else {
      NextFollows(s, events[0], seen);
      NextKeeps(s, events[0]);
      RunFollows(Next(s, events[0]), events[1..], SeenAfter(seen, events[0]));
    }
  }

  /** In every run a frame is pending exactly when the events ask for one, the roots under observation are the ones
      found last, and the clicks listened to are those of the button found last. */
  lemma PlatformFollowsTheEvents(events: seq<Event>)
    requires IsRun(INSTALLED, events)
    ensures var log, seen := After(INSTALLED, events).log, SeenIn(NOTHING_SEEN, events);
            && (PendingFrames(log) != {} <==> seen.asked) && Observed(log) == seen.roots
            && Listening(log) == OptionAsSet(seen.button)
            && (seen.dialog ==> !NoneThisSession(log, IsDialogFocus))
  {
    RunKeeps(INSTALLED, events);
    RunFollows(INSTALLED, events, NOTHING_SEEN);
  }

  /** After every run, a click asks the modal to close and does nothing else. */
  lemma ClickAsksToClose(events: seq<Event>, button: Element)
    requires IsRun(INSTALLED, events) && button in Listening(After(INSTALLED, events).log)
    ensures IsRun(INSTALLED, events + [Click(button)])
    ensures var before, after := After(INSTALLED, events), After(INSTALLED, events + [Click(button)]);
            after == before.(log := before.log + [CloseAsked])
  {
    hide Listening;
    RunExtends(INSTALLED, events, Click(button));
  }

  /** In every run, closing or disposing of an open modal gives the focus back to the trigger of its session exactly
      when the trigger is still connected. */
  lemma ClosingReturnsFocus(events: seq<Event>, e: Event, trigger: Element)
    requires IsRun(INSTALLED, events) && SeenIn(NOTHING_SEEN, events).open && (e.StateClosed? || e.Dispose?)
    requires LatestTrigger(After(INSTALLED, events).log) == Some(trigger)
    ensures var s := After(INSTALLED, events);
            s.log <= Next(s, e).log && (TriggerFocused(trigger) in Next(s, e).log[|s.log|..] <==> e.connected)
  {
    RunKeeps(INSTALLED, events);
    RunFollows(INSTALLED, events, NOTHING_SEEN);
    hide IsRun, After, SeenIn, Enabled, PendingFrames, Listening, Observed, LatestTrigger, OncePerSession,
         NoneThisSession, OwnTrigger, LabelledFirst, Invariant;
    ReturnsFocus(After(INSTALLED, events), e, trigger);
  }

  lemma ReturnsFocus(s: Shim, e: Event, trigger: Element)
    requires Invariant(s) && s.modalOpen && (e.StateClosed? || e.Dispose?) && LatestTrigger(s.log) == Some(trigger)
    ensures s.log <= Next(s, e).log && (TriggerFocused(trigger) in Next(s, e).log[|s.log|..] <==> e.connected)
  {
    hide PendingFrames, Listening, Observed, LatestTrigger, OncePerSession, NoneThisSession, OwnTrigger, LabelledFirst,
         Grows;
    var cancelled := CancelPending(s);
    var stopped := Disconnect(cancelled);
    var t := Wire(stopped, None);
    CancelGrows(s);
    DisconnectGrows(cancelled);
    WireGrows(stopped, None);
    GrowsOn(s.log, cancelled.log, stopped.log);
    GrowsOn(s.log, stopped.log, t.log);
    assert t.returnFocusElement == Some(trigger);
    var last := if e.connected then [TriggerFocused(trigger)] else [];
    var all := t.log + last + (if e.Dispose? then [Unsubscribed] else []);
    assert Next(s, e).log == all;
    GrownLog(s.log, t.log, all, trigger);
    if e.connected { assert all[|t.log|] == TriggerFocused(trigger); }
  }

  lemma GrownLog(a: seq<Effect>, b: seq<Effect>, c: seq<Effect>, trigger: Element)
    requires Grows(a, b) && b <= c
    ensures a <= c && (TriggerFocused(trigger) in c[|a|..] <==> TriggerFocused(trigger) in c[|b|..])
  {
    assert c[|a|..] == b[|a|..] + c[|b|..];
  }

  /** How many more frames can run before the next opening or mutation. */
  function FrameBudget(s: Shim): nat {
    if s.frameHandle.None? then 0
    else if s.patchAttempts < MAX_PATCH_ATTEMPTS then MAX_PATCH_ATTEMPTS - s.patchAttempts
    else 1
  }

  predicate Restarts(e: Event) { e.StateOpened? || e.Mutation? }

  ghost function Frames(events: seq<Event>): nat {
    if events == [] then 0 else (if events[0].Frame? then 1 else 0) + Frames(events[1..])
  }

  lemma BudgetFalls(s: Shim, e: Event)
    requires Invariant(s) && Enabled(s, e) && !Restarts(e)
    ensures FrameBudget(Next(s, e)) + (if e.Frame? then 1 else 0) <= FrameBudget(s)
  {
    hide OncePerSession, NoneThisSession, OwnTrigger, LatestTrigger, LabelledFirst, PendingFrames, Listening,
         Observed;
    match e
    case Frame(handle, view) =>
      var t := Log(s, FrameRan(handle)).(frameHandle := None, patchAttempts := s.patchAttempts + 1);
      LogStep(s.log, FrameRan(handle));
      LogKeepsFocus(s, FrameRan(handle));
      PatchKeeps(t, view);
    case StateClosed(connected) =>
      if s.modalOpen { CloseKeeps(s, true, connected); }
    case Dispose(connected) => CloseKeeps(s, s.modalOpen, connected);
    case Click(_) =>
  }

  lemma {:induction false} FramesWithinBudget(s: Shim, events: seq<Event>)
    requires Invariant(s) && IsRun(s, events) && forall e | e in events :: !Restarts(e)
    ensures Frames(events) <= FrameBudget(s)
    decreases |events|
  {
    if events == [] {
    } else {
      BudgetFalls(s, events[0]);
      NextKeeps(s, events[0]);
      FramesWithinBudget(Next(s, events[0]), events[1..]);
    }
  }

  /** The polling stops: after the last opening or mutation of any run, at most eight frames run. */
  lemma AtMostEightFramesMore(before: seq<Event>, events: seq<Event>)
    requires IsRun(INSTALLED, before) && IsRun(After(INSTALLED, before), events)
    requires forall e | e in events :: !Restarts(e)
    ensures Frames(events) <= MAX_PATCH_ATTEMPTS
  {
    RunKeeps(INSTALLED, before);
    FramesWithinBudget(After(INSTALLED, before), events);
  }

  // The counter of attempts, which the limit is compared with.

  /** An opening that is announced again after the last attempt of the open session. */
  predicate Reopens(s: Shim, e: Event) { e.StateOpened? && s.modalOpen && s.patchAttempts >= MAX_PATCH_ATTEMPTS }

  /** A frame runs before the modal closes, is disposed of or reports a mutation. */
  ghost predicate Fires(events: seq<Event>) {
    events != [] && (events[0].Frame? || ((events[0].StateOpened? || events[0].Click?) && Fires(events[1..])))
  }

  /** The modal is announced as open again after its last attempt, and then a frame runs. */
  ghost predicate Overruns(s: Shim, events: seq<Event>)
    decreases |events|
  {
    events != [] && ((Reopens(s, events[0]) && Fires(events[1..])) || Overruns(Next(s, events[0]), events[1..]))
  }

  /** The counter is within the limit in every state of the run. */
  ghost predicate AlwaysWithin(s: Shim, events: seq<Event>)
    decreases |events|
  {
    s.patchAttempts <= MAX_PATCH_ATTEMPTS && (events != [] ==> AlwaysWithin(Next(s, events[0]), events[1..]))
  }

  /** A pending frame has an attempt left. */
  predicate CounterWithin(s: Shim) {
    s.patchAttempts <= MAX_PATCH_ATTEMPTS && (s.frameHandle.Some? ==> s.patchAttempts < MAX_PATCH_ATTEMPTS)
  }

  /** A frame is pending after the last attempt. */
  predicate Armed(s: Shim) { s.modalOpen && s.frameHandle.Some? && s.patchAttempts == MAX_PATCH_ATTEMPTS }

  lemma NextKeepsCounter(s: Shim, e: Event)
    requires Invariant(s) && Enabled(s, e) && CounterWithin(s)
    ensures CounterWithin(Next(s, e)) <==> !Reopens(s, e)
    ensures Reopens(s, e) ==> Armed(Next(s, e))
  {
    hide FocusesWell, ClosedIsClean, PendingFrames, Listening, Observed, Patch;
    match e
    case Frame(handle, view) => RanFrameKeeps(s, handle, view);
    case StateClosed(connected) =>
      if s.modalOpen { CloseKeeps(s, true, connected); }
    case Dispose(connected) => CloseKeeps(s, s.modalOpen, connected);
    case _ =>
  }

  /** A patch attempt leaves the frame handle and the counter alone. */
  lemma RanFrameKeeps(s: Shim, handle: nat, view: View)
    requires Invariant(s) && handle in PendingFrames(s.log)
    ensures var t := Log(s, FrameRan(handle)).(frameHandle := None, patchAttempts := s.patchAttempts + 1);
            Patch(t, view).0.frameHandle.None? && Patch(t, view).0.patchAttempts == s.patchAttempts + 1
  {
    hide OncePerSession, NoneThisSession, OwnTrigger, LatestTrigger, LabelledFirst, PendingFrames, Listening,
         Observed;
    LogStep(s.log, FrameRan(handle));
    LogKeepsFocus(s, FrameRan(handle));
    PatchKeeps(Log(s, FrameRan(handle)).(frameHandle := None, patchAttempts := s.patchAttempts + 1), view);
  }

  lemma NextWhenArmed(s: Shim, e: Event)
    requires Invariant(s) && Enabled(s, e) && Armed(s)
    ensures e.Frame? ==> Next(s, e).patchAttempts > MAX_PATCH_ATTEMPTS
    ensures e.StateOpened? || e.Click? ==> Armed(Next(s, e))
    ensures !e.Frame? && !e.StateOpened? && !e.Click? ==> CounterWithin(Next(s, e))
  {
    hide FocusesWell, ClosedIsClean, PendingFrames, Listening, Observed, Patch;
    match e
    case Frame(handle, view) => RanFrameKeeps(s, handle, view);
    case StateClosed(connected) => CloseKeeps(s, true, connected);
    case Dispose(connected) => CloseKeeps(s, true, connected);
    case _ =>
  }

  lemma {:induction false} ArmedStaysWithin(s: Shim, events: seq<Event>)
    requires Invariant(s) && Armed(s) && IsRun(s, events)
    ensures AlwaysWithin(s, events) <==> !Fires(events) && !Overruns(s, events)
    decreases |events|
  {
    hide Invariant, Enabled, Next;
    if events == [] {
    } else {
      var t := Next(s, events[0]);
      NextWhenArmed(s, events[0]);
      NextKeeps(s, events[0]);
      if events[0].StateOpened? || events[0].Click? {
        ArmedStaysWithin(t, events[1..]);
      } else if !events[0].Frame? {
        CounterStaysWithin(t, events[1..]);
      }
    }
  }

  /** The counter stays within the limit throughout a run exactly when no opening that is announced
      again after the last attempt is followed by a frame of that session. */
  lemma {:induction false} CounterStaysWithin(s: Shim, events: seq<Event>)
    requires Invariant(s) && CounterWithin(s) && IsRun(s, events)
    ensures AlwaysWithin(s, events) <==> !Overruns(s, events)
    decreases |events|
  {
    hide Invariant, Enabled, Next, Reopens;
    if events == [] {
    } else {
      NextKeepsCounter(s, events[0]);
      NextKeeps(s, events[0]);
      if Reopens(s, events[0]) {
        ArmedStaysWithin(Next(s, events[0]), events[1..]);
      } else {
        CounterStaysWithin(Next(s, events[0]), events[1..]);
      }
    }
  }

  /** The same for the runs of an installed shim. */
  lemma CounterWithinExactlyWhen(events: seq<Event>)
    requires IsRun(INSTALLED, events)
    ensures AlwaysWithin(INSTALLED, events) <==> !Overruns(INSTALLED, events)
  {
    InstalledHolds();
    CounterStaysWithin(INSTALLED, events);
  }

  lemma InstalledHolds()
    ensures Invariant(INSTALLED)
  {}

  /** An opening, and then so many frames that find no modal. */
  ghost function Polling(frames: nat): seq<Event> {
    if frames == 0 then [StateOpened(None)] else Polling(frames - 1) + [Frame(frames - 1, NoModal)]
  }

  lemma {:induction false} RunExtends(s: Shim, events: seq<Event>, e: Event)
    requires IsRun(s, events) && Enabled(After(s, events), e)
    ensures IsRun(s, events + [e]) && After(s, events + [e]) == Next(After(s, events), e)
    decreases |events|
  {
    hide Enabled, Next;
    if events == [] {
      assert ([] + [e])[1..] == [];
    } else {
      RunExtends(Next(s, events[0]), events[1..], e);
      assert (events + [e])[1..] == events[1..] + [e];
    }
  }

  lemma {:induction false} PollingCounts(frames: nat)
    requires frames <= MAX_PATCH_ATTEMPTS
    ensures IsRun(INSTALLED, Polling(frames))
    ensures var s := After(INSTALLED, Polling(frames));
            && s.modalOpen && s.subscribed && s.patchAttempts == frames
            && s.frameHandle == (if frames < MAX_PATCH_ATTEMPTS then Some(frames) else None)
            && s.nextHandle == (if frames < MAX_PATCH_ATTEMPTS then frames + 1 else frames)
  {
    hide PendingFrames, Listening, Observed, FocusesWell, ClosedIsClean;
    InstalledHolds();
    if frames == 0 {
      RunExtends(INSTALLED, [], StateOpened(None));
      assert [] + [StateOpened(None)] == Polling(0);
    } else {
      PollingCounts(frames - 1);
      RunKeeps(INSTALLED, Polling(frames - 1));
      RunExtends(INSTALLED, Polling(frames - 1), Frame(frames - 1, NoModal));
    }
  }

  /** A run in which the counter passes the limit: eight frames find no modal, the opening is
      announced again, and one more frame runs. */
  lemma CounterCanPassTheLimit()
    ensures var events := Polling(8) + [StateOpened(None)] + [Frame(8, NoModal)];
            IsRun(INSTALLED, events) && After(INSTALLED, events).patchAttempts == MAX_PATCH_ATTEMPTS + 1
  {
    hide PendingFrames, Listening, Observed, Polling, IsRun, After;
    InstalledHolds();
    PollingCounts(8);
    RunExtends(INSTALLED, Polling(8), StateOpened(None));
    RunKeeps(INSTALLED, Polling(8) + [StateOpened(None)]);
    RunExtends(INSTALLED, Polling(8) + [StateOpened(None)], Frame(8, NoModal));
  }

  /** The installed shim: its variables are updated in place by every handler. */
  class InstalledShim {
    var frameHandle: Option<nat>
    var observer: bool
    var patchAttempts: nat
    var dialogFocused: bool
    var modalOpen: bool
    var returnFocusElement: Option<Element>
    var wiredCloseButton: Option<Element>
    var subscribed: bool
    var nextHandle: nat
    var log: seq<Effect>

    function State(): Shim
      reads this
    {
      Shim(frameHandle, observer, patchAttempts, dialogFocused, modalOpen, returnFocusElement, wiredCloseButton,
           subscribed, nextHandle, log)
    }

    constructor ()
      ensures State() == INSTALLED && Invariant(State())
    {
      frameHandle, observer, patchAttempts, dialogFocused, modalOpen := None, false, 0, false, false;
      returnFocusElement, wiredCloseButton, subscribed, nextHandle, log := None, None, true, 0, [];
    }

    method WireCloseButton(button: Option<Element>)
      modifies this
      ensures State() == Wire(old(State()), button)
    {
      if wiredCloseButton == button { return; }
      if wiredCloseButton.Some? { log := log + [ListenerRemoved(wiredCloseButton.value)]; }
      wiredCloseButton := button;
      if wiredCloseButton.Some? { log := log + [ListenerAdded(wiredCloseButton.value)]; }
    }

    method CancelPendingFrame()
      modifies this
      ensures State() == CancelPending(old(State()))
    {
      if frameHandle.None? { return; }
      log := log + [FrameCancelled(frameHandle.value)];
      frameHandle := None;
    }

    method DisconnectObserver()
      modifies this
      ensures State() == Disconnect(old(State()))
    {
      if observer { log := log + [ObserverStopped]; }
      observer := false;
    }

    method RestoreTriggerFocus(connected: bool)
      modifies this
      ensures State() == RestoreFocus(old(State()), connected)
    {
      var trigger := returnFocusElement;
      returnFocusElement := None;
      if trigger.Some? && connected { log := log + [TriggerFocused(trigger.value)]; }
    }

    method CloseModalSession(restoreFocus: bool, connected: bool)
      modifies this
      ensures State() == CloseSession(old(State()), restoreFocus, connected)
    {
      CancelPendingFrame();
      DisconnectObserver();
      WireCloseButton(None);
      patchAttempts := 0;
      dialogFocused := false;
      modalOpen := false;
      if restoreFocus { RestoreTriggerFocus(connected); } else { returnFocusElement := None; }
    }

    method ObserveCurrentRoots(header: bool, closeButton: bool)
      modifies this
      ensures State() == Observe(old(State()), {ModalRoot} + (if header then {HeaderRoot} else {})
                                               + (if closeButton then {ButtonRoot} else {}))
    {
      if observer { log := log + [ObserverStopped]; }
      observer := true;
      ghost var all := {ModalRoot} + (if header then {HeaderRoot} else {}) + (if closeButton then {ButtonRoot} else {});
      var roots := {ModalRoot};
      if header { roots := roots + {HeaderRoot}; }
      if closeButton { roots := roots + {ButtonRoot}; }
      assert roots == all;
      log := log + [ObserverStarted(roots)];
    }

    method PatchOpenModal(view: View) returns (complete: bool)
      modifies this
      ensures (State(), complete) == Patch(old(State()), view)
    {
      if !modalOpen { return true; }
      if view.NoModal? { return false; }
      if view.NoDialog? {
        ObserveCurrentRoots(false, false);
        return false;
      }
      log := log + [DialogLabelled];
      if !dialogFocused {
        log := log + [DialogFocused];
        dialogFocused := true;
      }
      var closeButton := CloseButton(view.header);
      if closeButton.Some? { log := log + [ButtonLabelled(closeButton.value)]; }
      WireCloseButton(closeButton);
      ObserveCurrentRoots(!view.header.NoHeaderRoot?, view.header.CloseButtonRoot?);
      return closeButton.Some?;
    }

    method SchedulePatch()
      modifies this
      ensures State() == Schedule(old(State()))
    {
      if !modalOpen || frameHandle.Some? { return; }
      log := log + [FrameRequested(nextHandle)];
      frameHandle := Some(nextHandle);
      nextHandle := nextHandle + 1;
    }

    method FrameCallback(handle: nat, view: View)
      requires Invariant(State()) && Enabled(State(), Frame(handle, view))
      modifies this
      ensures State() == OnFrame(old(State()), handle, view) && Invariant(State())
    {
      hide InStep, ClosedIsClean, FocusesWell, PendingFrames, Patch, Schedule;
      FrameKeeps(State(), handle, view);
      log := log + [FrameRan(handle)];
      frameHandle := None;
      patchAttempts := patchAttempts + 1;
      var complete := PatchOpenModal(view);
      if !complete && patchAttempts < MAX_PATCH_ATTEMPTS { SchedulePatch(); }
    }

    method ObserverCallback()
      requires Invariant(State()) && Enabled(State(), Mutation)
      modifies this
      ensures State() == OnMutation(old(State())) && Invariant(State())
    {
      hide OncePerSession, NoneThisSession, OwnTrigger, LatestTrigger, LabelledFirst, PendingFrames, Listening,
           Observed;
      NextKeeps(State(), Mutation);
      patchAttempts := 0;
      SchedulePatch();
    }

    method StateCallback(open: bool, trigger: Option<Element>, connected: bool)
      requires Invariant(State()) && subscribed
      modifies this
      ensures State() == (if open then OnOpened(old(State()), trigger) else OnClosed(old(State()), connected))
      ensures Invariant(State())
    {
      hide OncePerSession, NoneThisSession, OwnTrigger, LatestTrigger, LabelledFirst, PendingFrames, Listening,
           Observed;
      NextKeeps(State(), if open then StateOpened(trigger) else StateClosed(connected));
      if open {
        if !modalOpen {
          log := log + [SessionOpened(trigger)];
          modalOpen := true;
          returnFocusElement := trigger;
          patchAttempts := 0;
          dialogFocused := false;
        }
        SchedulePatch();
        return;
      }
      if modalOpen { CloseModalSession(true, connected); }
    }

    method DisposeShim(connected: bool)
      requires Invariant(State())
      modifies this
      ensures State() == OnDispose(old(State()), connected) && Invariant(State())
    {
      hide OncePerSession, NoneThisSession, OwnTrigger, LatestTrigger, LabelledFirst, PendingFrames, Listening,
           Observed;
      NextKeeps(State(), Dispose(connected));
      var shouldRestoreFocus := modalOpen;
      CloseModalSession(shouldRestoreFocus, connected);
      log := log + [Unsubscribed];
      subscribed := false;
    }
  }
}
