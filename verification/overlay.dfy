/** The display as a state machine: its settings, the label element (absent
    until start-up has created it), the handle of the last scheduled hide and
    the hide callbacks still pending. Timers are not clocks here: a pending
    hide fires when a `Fire` event names its handle. */
module OverlayMachine {
  import opened Wrappers
  import opened ViewportSettings
  import opened LabelStyle
  import opened DimensionLabel

  /** A pending `setTimeout` hide callback and the delay it was given. */
  datatype Timer = Timer(handle: nat, delay: int)

  /** The label element: its inline style and its text. */
  datatype Label = Label(style: Style, text: string)

  datatype Overlay = Overlay(
    settings: Settings,
    element: Option<Label>,      // null until start-up creates the element
    hideHandle: Option<nat>,   // the handle stored by the last `setTimeout`
    timers: seq<Timer>,        // hide callbacks scheduled and not yet fired or cleared
    nextHandle: nat)           // the handle the next `setTimeout` returns

  /** What can happen to the display. `width` and `height` are the window's
      inner size at the time of the event. */
  datatype Event =
    | Init(read: StoreRead, width: real, height: real)   // start-up resumes after the storage read
    | Resize(width: real, height: real)                  // a window resize
    | Fire(handle: nat)                                  // a pending hide callback runs
    | Message(kind: string, patch: Patch, width: real, height: real)  // a runtime message

  /** The freshly constructed display: default settings, no element yet. */
  const Constructed := Overlay(Defaults, None, None, [], 0)

  /** The pending timers without the one `clearTimeout(handle)` cancels;
      clearing a null handle cancels nothing. */
  function Cancel(timers: seq<Timer>, handle: Option<nat>): (r: seq<Timer>)
    ensures forall t :: t in r <==> t in timers && handle != Some(t.handle)
    ensures |r| <= |timers|
  {
    if |timers| == 0 then []
    else
      var rest := Cancel(timers[1..], handle);
      if handle == Some(timers[0].handle) then rest else [timers[0]] + rest
  }

  /** `hideTimeout = setTimeout(hide, hideAfter)`: one callback with the
      current delay is added and its handle stored. When every pending handle
      is below `nextHandle`, the new handle is fresh (no pending callback has
      it) and the bound still holds afterwards. */
  function ScheduleHide(o: Overlay): (r: Overlay)
    ensures r.timers == o.timers + [Timer(o.nextHandle, o.settings.hideAfter)]
    ensures r.hideHandle == Some(o.nextHandle) && r.nextHandle == o.nextHandle + 1
    ensures r.settings == o.settings && r.element == o.element
    ensures (forall t :: t in o.timers ==> t.handle < o.nextHandle) ==>
      (forall t :: t in o.timers ==> Some(t.handle) != r.hideHandle) &&
      (forall t :: t in r.timers ==> t.handle < r.nextHandle)
  {
    o.(timers := o.timers + [Timer(o.nextHandle, o.settings.hideAfter)],
       hideHandle := Some(o.nextHandle),
       nextHandle := o.nextHandle + 1)
  }

  /** Writes the element's opacity, leaving the rest of its style alone. */
  function WithOpacity(l: Label, opacity: string): (r: Label)
    ensures r.style.opacity == opacity && r.text == l.text
    ensures r.style.(opacity := l.style.opacity) == l.style
  {
    l.(style := l.style.(opacity := opacity))
  }

  function Opacity(o: Overlay): string
    requires o.element.Some?
  {
    o.element.value.style.opacity
  }

  /** Start-up after the storage read: merge the stored record, create the
      element with the computed style and the current size, and show it at
      full opacity; unless always-show is on, schedule one hide. The enabled
      flag is not consulted here: a disabled label is shown too. */
  function Initialize(o: Overlay, read: StoreRead, width: real, height: real): (r: Overlay)
    ensures r.settings == Load(o.settings, read)
    ensures r.element.Some? && r.element.value.text == DimensionText(width, height)
    ensures Opacity(r) == "1"
    ensures r.element.value.style.(opacity := Compute(r.settings).opacity) == Compute(r.settings)
    ensures r.settings.alwaysShow ==> r.timers == o.timers && r.hideHandle == o.hideHandle
    ensures !r.settings.alwaysShow ==>
      r.timers == o.timers + [Timer(o.nextHandle, r.settings.hideAfter)] && r.hideHandle == Some(o.nextHandle)
    ensures r.nextHandle == if r.settings.alwaysShow then o.nextHandle else o.nextHandle + 1
  {
    var s := Load(o.settings, read);
    var style := Compute(s);
    AssignOntoBlank(style);
    var created := Label(Assign(Blank, style), DimensionText(width, height));
    var shown := o.(settings := s, element := Some(WithOpacity(created, "1")));
    if s.alwaysShow then shown else ScheduleHide(shown)
  }

  /** The resize listener: refresh the text; unless always-show is on, cancel
      the last hide, show the element and schedule a new hide. Before start-up
      there is no listener. */
  function OnResize(o: Overlay, width: real, height: real): (r: Overlay)
    ensures r.settings == o.settings
    ensures o.element.None? ==> r == o
    ensures o.element.Some? ==> r.element.Some? && r.element.value.text == DimensionText(width, height)
    ensures o.element.Some? && o.settings.alwaysShow ==>
      r.element.value.style == o.element.value.style && r.timers == o.timers && r.hideHandle == o.hideHandle
    ensures o.element.Some? ==> r.element.value.style.(opacity := Opacity(o)) == o.element.value.style
    ensures o.element.Some? && o.settings.alwaysShow ==> r.nextHandle == o.nextHandle
    ensures o.element.Some? && !o.settings.alwaysShow ==>
      Opacity(r) == "1" &&
      r.timers == Cancel(o.timers, o.hideHandle) + [Timer(o.nextHandle, o.settings.hideAfter)] &&
      r.hideHandle == Some(o.nextHandle) && r.nextHandle == o.nextHandle + 1
  {
    if o.element.None? then o
    else
      var l := o.element.value.(text := DimensionText(width, height));
      if o.settings.alwaysShow then o.(element := Some(l))
      else ScheduleHide(o.(element := Some(WithOpacity(l, "1")), timers := Cancel(o.timers, o.hideHandle)))
  }

  /** A hide callback runs: it is no longer pending, and it makes the element
      transparent unless always-show is on at that moment. A handle that is not
      pending does nothing. */
  function OnFire(o: Overlay, handle: nat): (r: Overlay)
    ensures r.settings == o.settings && r.hideHandle == o.hideHandle && r.nextHandle == o.nextHandle
    ensures (forall t :: t in o.timers ==> t.handle != handle) ==> r == o
    ensures r.element.Some? <==> o.element.Some?
    ensures o.element.Some? ==> Opacity(r) == Opacity(o) || Opacity(r) == "0"
    ensures o.element.Some? && o.settings.alwaysShow ==> r.element == o.element
    ensures o.element.Some? && !o.settings.alwaysShow && (exists t :: t in o.timers && t.handle == handle) ==>
      Opacity(r) == "0"
    ensures forall t :: t in r.timers <==> t in o.timers && t.handle != handle
    ensures |r.timers| <= |o.timers|
    ensures o.element.Some? ==>
      r.element.value.text == o.element.value.text &&
      r.element.value.style.(opacity := Opacity(o)) == o.element.value.style
  {
    if forall t :: t in o.timers ==> t.handle != handle then o
    else
      var fired := o.(timers := Cancel(o.timers, Some(handle)));
      if o.settings.alwaysShow || o.element.None? then fired
      else fired.(element := Some(WithOpacity(o.element.value, "0")))
  }

  /** The message listener. Only "settingsUpdated" is acted on: merge the
      incoming record, restyle the element in place, refresh the text, and
      force full opacity when always-show is now on. A pending hide is not
      cancelled. Before start-up the restyle fails on the missing element, so
      only the merge takes effect. */
  function OnMessage(o: Overlay, kind: string, patch: Patch, width: real, height: real): (r: Overlay)
    ensures kind != "settingsUpdated" ==> r == o
    ensures kind == "settingsUpdated" ==> r.settings == Merge(o.settings, patch)
    ensures r.timers == o.timers && r.hideHandle == o.hideHandle && r.nextHandle == o.nextHandle
    ensures r.element.Some? <==> o.element.Some?
    ensures kind == "settingsUpdated" && o.element.Some? ==>
      r.element.value.text == DimensionText(width, height) &&
      Opacity(r) == (if r.settings.alwaysShow || r.settings.enabled then "1" else "0") &&
      r.element.value.style.(opacity := Compute(r.settings).opacity) ==
        Assign(o.element.value.style, Compute(r.settings))
  {
    if kind != "settingsUpdated" then o
    else
      var s := Merge(o.settings, patch);
      if o.element.None? then o.(settings := s)
      else
        var l := Label(Assign(o.element.value.style, Compute(s)), DimensionText(width, height));
        o.(settings := s, element := Some(if s.alwaysShow then WithOpacity(l, "1") else l))
  }

  /** One transition. Start-up runs once; an `Init` after it has no effect.
      Only start-up and messages change the settings, no event removes the
      element, and handles are never handed out twice. */
  function Step(o: Overlay, e: Event): (r: Overlay)
    ensures !e.Init? && !e.Message? ==> r.settings == o.settings
    ensures o.element.Some? ==> r.element.Some?
    ensures r.nextHandle >= o.nextHandle
  {
    match e
    case Init(read, width, height) => if o.element.None? then Initialize(o, read, width, height) else o
    case Resize(width, height) => OnResize(o, width, height)
    case Fire(handle) => OnFire(o, handle)
    case Message(kind, patch, width, height) => OnMessage(o, kind, patch, width, height)
  }

  /** The state after a sequence of events. Without start-up or messages the
      settings stay as they were, and the next handle never goes back. */
  function Run(o: Overlay, events: seq<Event>): (r: Overlay)
    ensures (forall i :: 0 <= i < |events| ==> !events[i].Init? && !events[i].Message?) ==> r.settings == o.settings
    ensures r.nextHandle >= o.nextHandle
    decreases |events|
  {
    if |events| == 0 then o else Run(Step(o, events[0]), events[1..])
  }

  /** The bookkeeping invariant: no timer before start-up, at most one pending
      hide, and when there is one it is the one the stored handle names. */
  predicate Valid(o: Overlay) {
    (o.element.None? ==> o.timers == [] && o.hideHandle.None?) &&
    |o.timers| <= 1 &&
    (forall t :: t in o.timers ==> t.handle < o.nextHandle) &&
    (|o.timers| == 1 ==> o.hideHandle == Some(o.timers[0].handle))
  }

  lemma ConstructedValid()
    ensures Valid(Constructed)
  {
  }

  /** Every transition keeps the invariant. */
  lemma StepValid(o: Overlay, e: Event)
    requires Valid(o)
    ensures Valid(Step(o, e))
  {
    match e
    case Init(read, width, height) =>
      if o.element.None? {
        InitValid(o, read, width, height);
      }
    case Resize(width, height) => ResizeValid(o, width, height);
    case Fire(handle) => FireValid(o, handle);
    case Message(kind, patch, width, height) => MessageValid(o, kind, patch, width, height);
  }

  lemma InitValid(o: Overlay, read: StoreRead, width: real, height: real)
    requires Valid(o) && o.element.None?
    ensures Valid(Initialize(o, read, width, height))
  {
    var r := Initialize(o, read, width, height);
    StartedValid(o, r);
  }

  /** The invariant after start-up, from the bookkeeping alone: an element now
      exists and at most the one new hide has been scheduled. */
  lemma StartedValid(o: Overlay, r: Overlay)
    requires Valid(o) && o.element.None? && r.element.Some?
    requires (r.timers == [] && r.hideHandle == o.hideHandle && r.nextHandle == o.nextHandle) ||
      (r.timers == [Timer(o.nextHandle, r.settings.hideAfter)] && r.hideHandle == Some(o.nextHandle) &&
       r.nextHandle == o.nextHandle + 1)
    ensures Valid(r)
  {
  }

  lemma MessageValid(o: Overlay, kind: string, patch: Patch, width: real, height: real)
    requires Valid(o)
    ensures Valid(OnMessage(o, kind, patch, width, height))
  {
  }

  lemma ResizeValid(o: Overlay, width: real, height: real)
    requires Valid(o)
    ensures Valid(OnResize(o, width, height))
  {
    if o.element.Some? && !o.settings.alwaysShow {
      assert Cancel(o.timers, o.hideHandle) == [];
    }
  }

  lemma FireValid(o: Overlay, handle: nat)
    requires Valid(o)
    ensures Valid(OnFire(o, handle))
  {
    var r := OnFire(o, handle);
    if |r.timers| == 1 {
      assert r.timers[0] in o.timers;
      assert o.timers == [r.timers[0]];
    }
  }

  /** Whatever happens, at most one hide is ever pending. */
  lemma {:induction false} AtMostOnePendingHide(o: Overlay, events: seq<Event>)
    requires Valid(o)
    ensures Valid(Run(o, events))
    ensures |Run(o, events).timers| <= 1
    decreases |events|
  {
    if |events| > 0 {
      StepValid(o, events[0]);
      AtMostOnePendingHide(Step(o, events[0]), events[1..]);
    }
  }

  /** After start-up the element is shown, whether or not the display is
      enabled; exactly one hide of `hideAfter` ms is pending unless always-show
      is on, in which case none is. */
  lemma StartUpShows(read: StoreRead, width: real, height: real)
    ensures var r := Step(Constructed, Init(read, width, height));
      r.element.Some? && Opacity(r) == "1" &&
      (r.settings.alwaysShow ==> r.timers == []) &&
      (!r.settings.alwaysShow ==> r.timers == [Timer(0, r.settings.hideAfter)])
  {
  }

  /** A resize without always-show leaves exactly one hide pending: a new one,
      of `hideAfter` ms, the earlier one cancelled. */
  lemma ResizeReschedules(o: Overlay, width: real, height: real)
    requires Valid(o) && o.element.Some? && !o.settings.alwaysShow
    ensures var r := Step(o, Resize(width, height));
      Opacity(r) == "1" && r.timers == [Timer(o.nextHandle, o.settings.hideAfter)] &&
      forall t :: t in o.timers ==> t !in r.timers
  {
    assert Cancel(o.timers, o.hideHandle) == [];
  }

  /** With nothing stored, start-up shows the label with the defaults and
      leaves one hide of 1000 ms pending. */
  lemma StartUpWithDefaults(width: real, height: real)
    ensures var r := Step(Constructed, Init(Absent, width, height));
      Valid(r) && r.settings == Defaults && r.element.Some? && Opacity(r) == "1" &&
      r.timers == [Timer(0, 1000)]
  {
    ConstructedValid();
    StepValid(Constructed, Init(Absent, width, height));
  }

  /** The pending hide firing with always-show off makes the label
      transparent; the element stays in place and no hide is left pending, so
      only the next resize shows it again. */
  lemma PendingHideHides(o: Overlay)
    requires Valid(o) && o.element.Some? && !o.settings.alwaysShow && |o.timers| == 1
    ensures var r := Step(o, Fire(o.timers[0].handle));
      Valid(r) && r.element.Some? && Opacity(r) == "0" && r.timers == [] &&
      r.settings == o.settings && r.element.value.text == o.element.value.text
  {
    var r := Step(o, Fire(o.timers[0].handle));
    assert o.timers == [o.timers[0]];
    assert r.timers == Cancel([o.timers[0]], Some(o.timers[0].handle));
    StepValid(o, Fire(o.timers[0].handle));
  }

  /** A disabled display is still shown at start-up: the computed style says
      transparent, but start-up overrides it with full opacity. */
  lemma DisabledShownAtStartUp(record: Patch, width: real, height: real)
    requires record.enabled == Some(false)
    ensures var r := Step(Constructed, Init(Stored(record), width, height));
      !r.settings.enabled && Compute(r.settings).opacity == "0" && Opacity(r) == "1"
  {
  }

  /** Events that keep always-show on: anything but a "settingsUpdated" message
      whose record turns it off. */
  predicate KeepsAlwaysShow(e: Event) {
    e.Message? ==> e.patch.alwaysShow != Some(false)
  }

  /** Once always-show is on and the element is shown, no pending hide and no
      other event that keeps always-show on can make it transparent. */
  lemma {:induction false} AlwaysShowStaysVisible(o: Overlay, events: seq<Event>)
    requires o.element.Some? && o.settings.alwaysShow && Opacity(o) == "1"
    requires forall i :: 0 <= i < |events| ==> KeepsAlwaysShow(events[i])
    ensures var r := Run(o, events);
      r.element.Some? && r.settings.alwaysShow && Opacity(r) == "1"
    decreases |events|
  {
    if |events| > 0 {
      var next := Step(o, events[0]);
      assert KeepsAlwaysShow(events[0]);
      assert next.element.Some? && next.settings.alwaysShow && Opacity(next) == "1";
      AlwaysShowStaysVisible(next, events[1..]);
    }
  }

  /** A "settingsUpdated" that turns always-show on shows the element at once,
      even with a hide still pending and even when the display is disabled, and
      that hide, when it fires, leaves it shown. */
  lemma AlwaysShowOverridesPendingHide(o: Overlay, patch: Patch, width: real, height: real)
    requires Valid(o) && o.element.Some? && |o.timers| == 1
    requires patch.alwaysShow == Some(true)
    ensures var updated := Step(o, Message("settingsUpdated", patch, width, height));
      var fired := Step(updated, Fire(o.timers[0].handle));
      Opacity(updated) == "1" && |updated.timers| == 1 &&
      Opacity(fired) == "1" && fired.timers == []
  {
    var updated := Step(o, Message("settingsUpdated", patch, width, height));
    AlwaysShowMessageShows(o, patch, width, height);
    FiringTheOnlyTimerEmptiesQueue(updated);
    FireUnderAlwaysShowKeepsElement(updated, o.timers[0].handle);
  }

  /** A merge that leaves always-show on shows the element and keeps the
      pending callbacks. */
  lemma AlwaysShowMessageShows(o: Overlay, patch: Patch, width: real, height: real)
    requires o.element.Some? && patch.alwaysShow == Some(true)
    ensures var r := Step(o, Message("settingsUpdated", patch, width, height));
      r.element.Some? && r.settings.alwaysShow && Opacity(r) == "1" && r.timers == o.timers
  {
  }

  /** With always-show on, a firing callback leaves the element as it is. */
  lemma FireUnderAlwaysShowKeepsElement(o: Overlay, handle: nat)
    requires o.element.Some? && o.settings.alwaysShow
    ensures OnFire(o, handle).element == o.element
  {
  }

  /** Firing the only pending callback leaves none pending. */
  lemma FiringTheOnlyTimerEmptiesQueue(o: Overlay)
    requires |o.timers| == 1
    ensures OnFire(o, o.timers[0].handle).timers == []
  {
  }

  /** Once created, the element is never removed: a disabled label is made
      transparent, not taken out of the page. */
  lemma {:induction false} LabelNeverRemoved(o: Overlay, events: seq<Event>)
    requires o.element.Some?
    ensures Run(o, events).element.Some?
    decreases |events|
  {
    if |events| > 0 {
      LabelNeverRemoved(Step(o, events[0]), events[1..]);
    }
  }

  /** A message that disables the display, without always-show, makes the element
      transparent at once; a hide still pending stays pending. */
  lemma DisableHides(o: Overlay, patch: Patch, width: real, height: real)
    requires o.element.Some?
    requires patch.enabled == Some(false) && patch.alwaysShow == Some(false)
    ensures var r := Step(o, Message("settingsUpdated", patch, width, height));
      Opacity(r) == "0" && r.timers == o.timers
  {
  }

  /** Messages that arrive before start-up finishes change the settings, and
      the stored record read at start-up is merged over them. */
  lemma EarlyMessageThenStartUp(patch: Patch, record: Patch, width: real, height: real)
    ensures var early := Step(Constructed, Message("settingsUpdated", patch, width, height));
      var started := Step(early, Init(Stored(record), width, height));
      early.element.None? && early.settings == Merge(Defaults, patch) &&
      started.settings == Merge(Defaults, Then(patch, record))
  {
    MergeThen(Defaults, patch, record);
  }
}
