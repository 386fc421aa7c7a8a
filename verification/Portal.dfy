// The desktop portal's global shortcuts. Everything that reaches the object between two awaits is one step:
// a reply, a signal, a refresh request or a stop, in any order.
module Portal {
  import opened Prelude
  import opened ActionLog

  const ACTIONS: seq<string> :=
    ["toggleMute", "toggleDeafen", "pushToTalk", "toggleCamera", "toggleScreenShare", "disconnect"]

  /** One entry of a shortcut list: `Malformed` is no array or has no string id. */
  datatype Entry = Malformed | Shortcut(id: string, trigger: Option<string>)

  datatype BindReply = BindRejected | BoundToNoList | Bound(entries: seq<Entry>)

  datatype ListReply = ListRejected | Listed(entries: seq<Entry>)

  datatype Event =
    | Start
    | BindAnswered(bind: BindReply)
    | Activated(id: string)
    | Deactivated(id: string)
    | RefreshRequested
    | ListAnswered(list: ListReply)
    | SessionLost
    | Stopped

  /** `requests` counts the refresh requests taken since binding; a list fetch remembers how many it started after. */
  datatype PortalState = PortalState(
    started: bool, bindDone: bool, bound: bool, closed: bool, refreshing: bool, refreshAgain: bool,
    active: seq<string>, shortcuts: map<string, string>, calls: seq<Call>,
    inFlight: nat, requests: nat, fetchSince: nat, shownSince: nat, shown: seq<Entry>)

  function Fresh(): PortalState {
    PortalState(false, false, false, false, false, false, [], map[], [], 0, 0, 0, 0, [])
  }

  function Assigned(shortcuts: map<string, string>, id: string): Option<string> {
    if id in shortcuts then Some(shortcuts[id]) else None
  }

  /** The assignments a list describes: of the requested actions only, the last entry of an action counting. */
  function Assignments(entries: seq<Entry>): map<string, string> {
    if entries == [] then map[]
    else
      var earlier, entry := Assignments(entries[..|entries| - 1]), entries[|entries| - 1];
      if entry.Shortcut? && entry.id in ACTIONS then earlier[entry.id := OrElse(entry.trigger, Some("")).value]
      else earlier
  }

  predicate Names(entry: Entry, id: string) {
    entry.Shortcut? && entry.id == id && id in ACTIONS
  }

  /** `i` is the last entry that names the action. */
  predicate LastNaming(entries: seq<Entry>, id: string, i: int) {
    0 <= i < |entries| && Names(entries[i], id) && forall j :: i < j < |entries| ==> !Names(entries[j], id)
  }

  /** An action is assigned iff an entry names it, and its trigger text is the last such entry's. */
  lemma {:induction false} AssignmentsOfList(entries: seq<Entry>, id: string) returns (last: int)
    ensures id in Assignments(entries) <==> LastNaming(entries, id, last)
    ensures id in Assignments(entries) ==> Assignments(entries)[id] == OrElse(entries[last].trigger, Some("")).value
    ensures id !in Assignments(entries) ==> forall i :: 0 <= i < |entries| ==> !Names(entries[i], id)
  {
    last := 0;
    if entries != [] {
      var n := |entries| - 1;
      assert forall i :: 0 <= i < n ==> entries[..n][i] == entries[i];
      if Names(entries[n], id) {
        last := n;
      } else {
        last := AssignmentsOfList(entries[..n], id);
      }
    }
  }

  function SameIn(a: map<string, string>, b: map<string, string>): string -> bool {
    (id: string) => Assigned(a, id) == Assigned(b, id)
  }

  lemma SameMeans(a: map<string, string>, b: map<string, string>)
    ensures forall id :: SameIn(a, b)(id) <==> Assigned(a, id) == Assigned(b, id)
  {
  }

  /** `setShortcuts`: a held action whose assignment changed is released. */
  function SetShortcuts(s: PortalState, entries: seq<Entry>): PortalState {
    var next := Assignments(entries);
    s.(active := Filter(SameIn(next, s.shortcuts), s.active),
       calls := s.calls + Releases(Filter(Not(SameIn(next, s.shortcuts)), s.active)),
       shortcuts := next,
       shown := entries)
  }

  function StopState(s: PortalState): PortalState {
    if s.closed then s else s.(closed := true, active := [], calls := s.calls + Releases(s.active))
  }

  lemma ClosedStops(s: PortalState)
    ensures s.closed ==> StopState(s) == s
  {
  }

  function FetchList(s: PortalState): PortalState {
    s.(refreshAgain := false, inFlight := s.inFlight + 1, fetchSince := s.requests)
  }

  function BindStep(s: PortalState, reply: BindReply): PortalState {
    match reply
    case BindRejected => StopState(s)
    case BoundToNoList => StopState(s.(bound := true))
    case Bound(entries) => SetShortcuts(s.(bound := true), entries)
  }

  function ListStep(s: PortalState, reply: ListReply): PortalState {
    match reply
    case ListRejected => StopState(s).(refreshing := false)
    case Listed(entries) =>
      TurnEnd(if s.closed then s else SetShortcuts(s, entries).(shownSince := s.fetchSince))
  }

  function TurnEnd(s: PortalState): PortalState {
    if s.refreshAgain && !s.closed then FetchList(s) else s.(refreshing := false)
  }

  function RefreshStep(s: PortalState): PortalState {
    if s.closed || !s.bound then s
    else if s.refreshing then s.(requests := s.requests + 1, refreshAgain := true)
    else FetchList(s.(requests := s.requests + 1, refreshing := true))
  }

  function ActivatedStep(s: PortalState, id: string): PortalState {
    if s.closed || id !in ACTIONS || id in s.active then s
    else s.(active := s.active + [id], calls := s.calls + [Call(id, true)])
  }

  function DeactivatedStep(s: PortalState, id: string): PortalState {
    if s.closed || id !in ACTIONS || id !in s.active then s
    else s.(active := Remove(s.active, id), calls := s.calls + [Call(id, false)])
  }

  /** A reply arrives only to a call that is waiting for one. */
  function Step(s: PortalState, event: Event): PortalState {
    match event
    case Start => if s.closed then s else s.(started := true)
    case BindAnswered(reply) => if !s.started || s.bindDone then s else BindStep(s.(bindDone := true), reply)
    case Activated(id) => ActivatedStep(s, id)
    case Deactivated(id) => DeactivatedStep(s, id)
    case RefreshRequested => RefreshStep(s)
    case ListAnswered(reply) => if s.inFlight == 0 then s else ListStep(s.(inFlight := s.inFlight - 1), reply)
    case SessionLost => StopState(s)
    case Stopped => StopState(s)
  }

  function Run(s: PortalState, events: seq<Event>): PortalState {
    if events == [] then s else Step(Run(s, events[..|events| - 1]), events[|events| - 1])
  }

  // ---- The class ----

  class GlobalShortcutsPortal {
    var started: bool
    var bindDone: bool
    var bound: bool
    var closed: bool
    var refreshing: bool
    var refreshAgain: bool
    var active: seq<string>
    var shortcuts: map<string, string>
    var calls: seq<Call>
    ghost var inFlight: nat
    ghost var requests: nat
    ghost var fetchSince: nat
    ghost var shownSince: nat
    ghost var shown: seq<Entry>

    ghost function State(): PortalState
      reads this
    {
      PortalState(started, bindDone, bound, closed, refreshing, refreshAgain, active, shortcuts, calls,
                  inFlight, requests, fetchSince, shownSince, shown)
    }

    constructor ()
      ensures State() == Fresh()
    {
      started, bindDone, bound, closed, refreshing, refreshAgain := false, false, false, false, false, false;
      active, shortcuts, calls := [], map[], [];
      inFlight, requests, fetchSince, shownSince, shown := 0, 0, 0, 0, [];
    }

    static method ReadList(entries: seq<Entry>) returns (next: map<string, string>)
      ensures next == Assignments(entries)
    {
      next := map[];
      for i := 0 to |entries|
        invariant next == Assignments(entries[..i])
      {
        assert entries[..i + 1][..i] == entries[..i];
        if entries[i].Shortcut? && entries[i].id in ACTIONS {
          next := next[entries[i].id := if entries[i].trigger.Some? then entries[i].trigger.value else ""];
        }
      }
      assert entries[..|entries|] == entries;
    }

    method ReleaseChanged(next: map<string, string>)
      requires Distinct(active)
      modifies this`active, this`calls
      ensures var keep := SameIn(next, shortcuts);
              && active == Filter(keep, old(active))
              && calls == old(calls) + Releases(Filter(Not(keep), old(active)))
    {
      hide Filter, Left, Gone, Remove, SameIn;
      var ids := active;
      ghost var keep := SameIn(next, shortcuts);
      SameMeans(next, shortcuts);
      DropEnds(keep, ids);
      for i := 0 to |ids|
        invariant active == Left(keep, ids, i) && calls == old(calls) + Gone(keep, ids, i)
      {
        DropStep(keep, ids, i);
        if Assigned(next, ids[i]) != Assigned(shortcuts, ids[i]) {
          active := Remove(active, ids[i]);
          calls := calls + [Call(ids[i], false)];
        }
      }
    }

    method SetList(entries: seq<Entry>)
      requires Distinct(active)
      modifies this
      ensures State() == SetShortcuts(old(State()), entries)
    {
      var next := ReadList(entries);
      ReleaseChanged(next);
      shortcuts := next;
      shown := entries;
    }

    method Stop()
      modifies this
      ensures State() == StopState(old(State()))
    {
      if closed {
        return;
      }
      closed := true;
      for i := 0 to |active|
        invariant active == old(active) && calls == old(calls) + Releases(active[..i])
        invariant State() == old(State()).(closed := true, calls := calls)
      {
        calls := calls + [Call(active[i], false)];
      }
      assert active[..|active|] == active;
      active := [];
    }

    method StartSession()
      modifies this
      ensures State() == Step(old(State()), Start)
    {
      if closed || started {
        return;
      }
      started := true;
    }

    /** The rest of `start`, once the bind request settled. */
    method OnBindSettled(reply: BindReply)
      requires Distinct(active)
      modifies this
      ensures State() == Step(old(State()), BindAnswered(reply))
    {
      hide Filter, Assignments, Releases;
      if !started || bindDone {
        return;
      }
      bindDone := true;
      match reply
      case BindRejected =>
        if !closed { Stop(); }
      case BoundToNoList =>
        bound := true;
        if !closed { Stop(); }
      case Bound(entries) =>
        bound := true;
        SetList(entries);
    }

    method OnActivated(id: string)
      modifies this
      ensures State() == Step(old(State()), Activated(id))
    {
      if !closed && id in ACTIONS && id !in active {
        active := active + [id];
        calls := calls + [Call(id, true)];
      }
    }

    method OnDeactivated(id: string)
      modifies this
      ensures State() == Step(old(State()), Deactivated(id))
    {
      if !closed && id in ACTIONS && id in active {
        active := Remove(active, id);
        calls := calls + [Call(id, false)];
      }
    }

    /** A request taken is never lost: the one fetch out started after it, or will be repeated. */
    method Refresh()
      modifies this
      ensures State() == Step(old(State()), RefreshRequested)
      ensures old(NoRefreshLost(State())) ==>
                && NoRefreshLost(State())
                && (bound && !closed ==>
                      requests == old(requests) + 1 && inFlight == 1 && (refreshAgain || fetchSince == requests))
    {
      RefreshIsRemembered(State());
      if closed || !bound {
        return;
      }
      requests := requests + 1;
      if refreshing {
        refreshAgain := true;
        return;
      }
      refreshing := true;
      refreshAgain := false;
      inFlight, fetchSince := inFlight + 1, requests;
    }

    /** One turn of the refresh loop: a fetch started now covers every request, else an open portal shows them. */
    method OnListSettled(reply: ListReply)
      requires Distinct(active) && inFlight > 0
      modifies this
      ensures State() == Step(old(State()), ListAnswered(reply))
      ensures old(NoRefreshLost(State())) ==>
                && NoRefreshLost(State())
                && (inFlight == 1 ==> fetchSince == requests && !refreshAgain)
                && (inFlight == 0 && !closed ==> shownSince == requests)
    {
      hide Step, TurnEnd, StopState, NoRefreshLost, SetShortcuts, Distinct;
      AnswerCoversRequests(State(), reply);
      inFlight := inFlight - 1;
      match reply
      case ListRejected => OnRejected();
      case Listed(entries) => OnListed(entries);
    }

    method OnRejected()
      modifies this
      ensures State() == StopState(old(State())).(refreshing := false)
    {
      hide StopState;
      ClosedStops(State());
      if !closed { Stop(); }
      refreshing := false;
    }

    method OnListed(entries: seq<Entry>)
      requires Distinct(active)
      modifies this
      ensures State() == ListStep(old(State()), Listed(entries))
    {
      hide TurnEnd, Assignments, Filter, Releases;
      if !closed {
        SetList(entries);
        shownSince := fetchSince;
      }
      ContinueOrEnd();
    }

    method ContinueOrEnd()
      modifies this
      ensures State() == TurnEnd(old(State()))
    {
      if refreshAgain && !closed {
        refreshAgain := false;
        inFlight, fetchSince := inFlight + 1, requests;
      } else {
        refreshing := false;
      }
    }

    /** Session closed, service restarted, bus error or bus end. */
    method OnLost()
      modifies this
      ensures State() == Step(old(State()), SessionLost)
    {
      if !closed { Stop(); }
    }
  }

  // ---- What every run keeps ----

  ghost predicate ActionsTracked(s: PortalState) {
    Tracks(s.active, s.calls) && (s.closed ==> s.active == [])
  }

  /** At most one fetch is in flight, and an idle open portal shows a list fetched after the latest request. */
  ghost predicate NoRefreshLost(s: PortalState) {
    && s.inFlight == (if s.refreshing then 1 else 0)
    && (s.refreshing ==> s.bound)
    && (s.bound ==> s.bindDone)
    && (!s.bound ==> s.requests == s.shownSince == 0)
    && s.shownSince <= s.fetchSince <= s.requests
    && (!s.closed && !s.refreshing ==> s.shownSince == s.requests)
    && (!s.closed && s.refreshing ==> s.refreshAgain || s.fetchSince == s.requests)
    && s.shortcuts == Assignments(s.shown)
  }

  lemma StopTracks(s: PortalState)
    requires ActionsTracked(s)
    ensures ActionsTracked(StopState(s)) && StopState(s).closed
  {
    ReleaseEach(s.active, s.calls, s.active);
  }

  lemma ReleaseOne(active: seq<string>, calls: seq<Call>, id: string)
    requires Tracks(active, calls) && id in active
    ensures Tracks(Remove(active, id), calls + [Call(id, false)])
  {
    FilterDistinct((x: string) => x != id, active);
    HeldAppend(calls, Call(id, false), id);
    forall x ensures x in Remove(active, id) <==> Held(calls + [Call(id, false)], x) {
      HeldAppend(calls, Call(id, false), x);
    }
  }

  lemma SetTracks(s: PortalState, entries: seq<Entry>)
    requires ActionsTracked(s)
    ensures ActionsTracked(SetShortcuts(s, entries))
  {
    ReleaseTracks(s.active, s.calls, SameIn(Assignments(entries), s.shortcuts));
  }

  lemma BindTracks(s: PortalState, reply: BindReply)
    requires ActionsTracked(s)
    ensures ActionsTracked(BindStep(s, reply))
  {
    hide Tracks, StopState, SetShortcuts;
    StopTracks(s);
    StopTracks(s.(bound := true));
    if reply.Bound? { SetTracks(s.(bound := true), reply.entries); }
  }

  lemma ListTracks(s: PortalState, reply: ListReply)
    requires ActionsTracked(s)
    ensures ActionsTracked(ListStep(s, reply))
  {
    hide Tracks, StopState, SetShortcuts;
    StopTracks(s);
    if reply.Listed? { SetTracks(s, reply.entries); }
  }

  lemma SignalTracks(s: PortalState, id: string)
    requires ActionsTracked(s)
    ensures ActionsTracked(ActivatedStep(s, id)) && ActionsTracked(DeactivatedStep(s, id))
  {
    hide Tracks, Remove;
    TrackedActive(s, id);
    if id !in s.active {
      PressTracks(s.active, s.calls, id);
    } else {
      ReleaseOne(s.active, s.calls, id);
    }
  }

  lemma TrackedActive(s: PortalState, id: string)
    requires ActionsTracked(s)
    ensures s.closed ==> id !in s.active
  {
  }

  lemma StepTracks(s: PortalState, event: Event)
    requires ActionsTracked(s)
    ensures ActionsTracked(Step(s, event))
  {
    hide Tracks, StopState, BindStep, ListStep, ActivatedStep, DeactivatedStep;
    match event
    case Start =>
    case BindAnswered(reply) => BindTracks(s.(bindDone := true), reply);
    case Activated(id) => SignalTracks(s, id);
    case Deactivated(id) => SignalTracks(s, id);
    case RefreshRequested =>
    case ListAnswered(reply) => if s.inFlight > 0 { ListTracks(s.(inFlight := s.inFlight - 1), reply); }
    case SessionLost => StopTracks(s);
    case Stopped => StopTracks(s);
  }

  lemma StepLosesNoRefresh(s: PortalState, event: Event)
    requires NoRefreshLost(s)
    ensures NoRefreshLost(Step(s, event))
  {
    hide Assignments, Filter, Releases, Remove, SameIn;
  }

  lemma RefreshIsRemembered(s: PortalState)
    ensures var t := Step(s, RefreshRequested);
            NoRefreshLost(s) ==>
              && NoRefreshLost(t)
              && (t.bound && !t.closed ==>
                    t.requests == s.requests + 1 && t.inFlight == 1 && (t.refreshAgain || t.fetchSince == t.requests))
  {
    hide Assignments;
  }

  lemma AnswerCoversRequests(s: PortalState, reply: ListReply)
    requires s.inFlight > 0
    ensures var t := Step(s, ListAnswered(reply));
            && t == ListStep(s.(inFlight := s.inFlight - 1), reply)
            && (NoRefreshLost(s) ==>
                  && NoRefreshLost(t)
                  && (t.inFlight == 1 ==> t.fetchSince == t.requests && !t.refreshAgain)
                  && (t.inFlight == 0 && !t.closed ==> t.shownSince == t.requests))
  {
    hide Assignments, Filter, Releases, Remove, SameIn;
  }

  lemma {:induction false} RunTracks(events: seq<Event>)
    ensures ActionsTracked(Run(Fresh(), events))
  {
    if events == [] {
      assert Tracks([], []);
    } else {
      RunTracks(events[..|events| - 1]);
      StepTracks(Run(Fresh(), events[..|events| - 1]), events[|events| - 1]);
    }
  }

  /** Every run: calls alternate per action, and the held set is exactly what was last pressed. */
  lemma PressesAlternate(events: seq<Event>, id: string)
    ensures var s := Run(Fresh(), events);
            && PressReleasePress(Filter(Of(id), s.calls))
            && (id in s.active <==> |Filter(Of(id), s.calls)| % 2 == 1)
  {
    var s := Run(Fresh(), events);
    RunTracks(events);
    AlternatesPerAction(s.calls, id);
  }

  // ---- Which actions a run holds, read off its events ----

  /** The state the first `n` events lead to. */
  function Before(events: seq<Event>, n: nat): PortalState
    requires n <= |events|
  {
    Run(Fresh(), events[..n])
  }

  /** The event is a reply to the bind call or to a list call that is out, and carries a list. */
  predicate Shows(s: PortalState, event: Event) {
    match event
    case BindAnswered(Bound(_)) => s.started && !s.bindDone
    case ListAnswered(Listed(_)) => s.inFlight > 0
    case _ => false
  }

  function ListOf(event: Event): seq<Entry> {
    match event
    case BindAnswered(Bound(entries)) => entries
    case ListAnswered(Listed(entries)) => entries
    case _ => []
  }

  /** The list last shown, none at first. */
  function LastShown(events: seq<Event>): seq<Entry> {
    if events == [] then []
    else
      var n := |events| - 1;
      if Shows(Before(events, n), events[n]) then ListOf(events[n]) else LastShown(events[..n])
  }

  /** The event stops the portal: a stop, a lost session, or a waited-for reply that is no list. */
  predicate Closes(s: PortalState, event: Event) {
    match event
    case SessionLost => true
    case Stopped => true
    case BindAnswered(reply) => s.started && !s.bindDone && !reply.Bound?
    case ListAnswered(reply) => s.inFlight > 0 && reply.ListRejected?
    case _ => false
  }

  /** The event at `j` shows a list in which the action's assignment is another than in the list shown before. */
  ghost predicate Reassigns(events: seq<Event>, j: nat, id: string)
    requires j < |events|
  {
    && Shows(Before(events, j), events[j])
    && Assigned(Assignments(ListOf(events[j])), id) != Assigned(Assignments(LastShown(events[..j])), id)
  }

  /** The event at `i` activated the action, and since then nothing deactivated or reassigned it. */
  ghost predicate PressedSince(events: seq<Event>, id: string, i: nat) {
    && i < |events| && events[i] == Activated(id)
    && forall j :: i < j < |events| ==> events[j] != Deactivated(id) && !Reassigns(events, j, id)
  }

  lemma StepShows(s: PortalState, event: Event)
    requires !Step(s, event).closed
    ensures !s.closed
    ensures Step(s, event).shortcuts == if Shows(s, event) then Assignments(ListOf(event)) else s.shortcuts
  {
    hide Assignments, Filter, Releases, Remove, SameIn, BindStep, ListStep;
    match event
    case BindAnswered(reply) => if s.started && !s.bindDone { BindShows(s.(bindDone := true), reply); }
    case ListAnswered(reply) => if s.inFlight > 0 { ListShows(s.(inFlight := s.inFlight - 1), reply); }
    case _ =>
  }

  lemma BindShows(s: PortalState, reply: BindReply)
    ensures var t := BindStep(s, reply);
            && (t.closed <==> s.closed || !reply.Bound?)
            && (!t.closed ==>
                  && t.shortcuts == Assignments(reply.entries)
                  && t.bound && t.started == s.started && t.bindDone == s.bindDone)
  {
    hide Assignments, Filter, Releases, SameIn;
  }

  lemma ListShows(s: PortalState, reply: ListReply)
    ensures var t := ListStep(s, reply);
            && (t.closed <==> s.closed || reply.ListRejected?)
            && (!t.closed ==>
                  && t.shortcuts == Assignments(reply.entries)
                  && t.bound == s.bound && t.started == s.started && t.bindDone == s.bindDone)
  {
    hide Assignments, Filter, Releases, SameIn;
  }

  lemma StepCloses(s: PortalState, event: Event)
    ensures Step(s, event).closed <==> s.closed || Closes(s, event)
  {
    hide Assignments, Filter, Releases, Remove, SameIn, BindStep, ListStep;
    match event
    case BindAnswered(reply) => BindShows(s.(bindDone := true), reply);
    case ListAnswered(reply) => if s.inFlight > 0 { ListShows(s.(inFlight := s.inFlight - 1), reply); }
    case _ =>
  }

  /** A step of an open portal: pressed by its activation, released by its deactivation or by a changed assignment. */
  lemma StepHolds(s: PortalState, event: Event, id: string)
    requires !Step(s, event).closed && id in ACTIONS
    ensures id in Step(s, event).active <==>
            || event == Activated(id)
            || (id in s.active && event != Deactivated(id)
                && (Shows(s, event) ==> Assigned(Assignments(ListOf(event)), id) == Assigned(s.shortcuts, id)))
  {
    hide Assignments, Releases, Not;
    if Shows(s, event) { SameMeans(Assignments(ListOf(event)), s.shortcuts); }
  }

  lemma {:induction false} ShownIsLast(events: seq<Event>)
    requires !Run(Fresh(), events).closed
    ensures Run(Fresh(), events).shortcuts == Assignments(LastShown(events))
  {
    hide Step, Shows, Assignments;
    if events != [] {
      var n := |events| - 1;
      StepShows(Before(events, n), events[n]);
      ShownIsLast(events[..n]);
    } else {
      NothingShown();
    }
  }

  lemma NothingShown()
    ensures Assignments([]) == map[]
  {
  }

  lemma ReassignsEarlier(events: seq<Event>, n: nat, j: nat, id: string)
    requires j < n <= |events|
    ensures Reassigns(events[..n], j, id) <==> Reassigns(events, j, id)
  {
    assert events[..n][..j] == events[..j];
  }

  /** Every run: an open portal holds an action iff it was activated and neither deactivated nor reassigned since. */
  lemma {:induction false} HeldIffActivated(events: seq<Event>, id: string)
    requires !Run(Fresh(), events).closed && id in ACTIONS
    ensures id in Run(Fresh(), events).active <==> exists i: nat :: PressedSince(events, id, i)
  {
    hide Step, Shows, Assignments, LastShown, Reassigns;
    if events != [] {
      var n := |events| - 1;
      var init := events[..n];
      var s := Before(events, n);
      StepShows(s, events[n]);
      HeldIffActivated(init, id);
      StepHolds(s, events[n], id);
      ShownIsLast(init);
      ReassignsLast(events, id);
      forall j | 0 <= j < n ensures Reassigns(init, j, id) <==> Reassigns(events, j, id) {
        ReassignsEarlier(events, n, j, id);
      }
      if i: nat :| PressedSince(init, id, i) && events[n] != Deactivated(id) && !Reassigns(events, n, id) {
        assert PressedSince(events, id, i);
      }
      if i: nat :| PressedSince(events, id, i) && i < n {
        assert PressedSince(init, id, i);
      }
      assert events[n] == Activated(id) ==> PressedSince(events, id, n);
    }
  }

  lemma ReassignsLast(events: seq<Event>, id: string)
    requires events != []
    ensures var n := |events| - 1;
            var s := Before(events, n);
            Reassigns(events, n, id) <==>
              Shows(s, events[n])
              && Assigned(Assignments(ListOf(events[n])), id) != Assigned(Assignments(LastShown(events[..n])), id)
  {
  }

  /** Every run: the portal is closed iff a stop, a loss or a failed reply was among the events. */
  lemma {:induction false} ClosedIff(events: seq<Event>)
    ensures Run(Fresh(), events).closed <==> exists i :: 0 <= i < |events| && Closes(Before(events, i), events[i])
  {
    hide Step, Closes;
    if events != [] {
      var n := |events| - 1;
      ClosedIff(events[..n]);
      StepCloses(Before(events, n), events[n]);
      forall i | 0 <= i < n ensures events[..n][..i] == events[..i] {
      }
      if i :| 0 <= i < n && Closes(Before(events[..n], i), events[..n][i]) {
        assert Closes(Before(events, i), events[i]);
      }
      if i :| 0 <= i < n && Closes(Before(events, i), events[i]) {
        assert Closes(Before(events[..n], i), events[..n][i]);
      }
    }
  }

  ghost predicate Starts(events: seq<Event>) {
    Start in events
  }

  ghost predicate BindSettles(events: seq<Event>) {
    exists j :: 0 <= j < |events| && events[j].BindAnswered? && Starts(events[..j])
  }

  lemma StepBinds(s: PortalState, event: Event)
    requires !Step(s, event).closed
    ensures var t := Step(s, event);
            && !s.closed
            && (t.started <==> s.started || event == Start)
            && (t.bindDone <==> s.bindDone || (s.started && event.BindAnswered?))
            && (s.bound == s.bindDone ==> t.bound == t.bindDone)
  {
    hide Assignments, Filter, Releases, Remove, SameIn, BindStep, ListStep;
    match event
    case BindAnswered(reply) => if s.started && !s.bindDone { BindShows(s.(bindDone := true), reply); }
    case ListAnswered(reply) => if s.inFlight > 0 { ListShows(s.(inFlight := s.inFlight - 1), reply); }
    case _ =>
  }

  /** Every run: an open portal waits for its bind reply from the first start on, and is bound once it came. */
  lemma {:induction false} BoundIff(events: seq<Event>)
    requires !Run(Fresh(), events).closed
    ensures var s := Run(Fresh(), events);
            && (s.started <==> Starts(events))
            && (s.bound <==> BindSettles(events)) && s.bound == s.bindDone
  {
    hide Step;
    if events != [] {
      var n := |events| - 1;
      StepBinds(Before(events, n), events[n]);
      BoundIff(events[..n]);
      assert events == events[..n] + [events[n]];
      forall j | 0 <= j <= n ensures events[..n][..j] == events[..j] {
      }
      if j :| 0 <= j < n && events[j].BindAnswered? && Starts(events[..j]) {
        assert events[..n][j].BindAnswered? && Starts(events[..n][..j]);
      }
      if BindSettles(events[..n]) {
        var j :| 0 <= j < n && events[..n][j].BindAnswered? && Starts(events[..n][..j]);
        assert events[j].BindAnswered? && Starts(events[..j]);
      }
    }
  }

  /** While an open portal fetches, it will fetch again exactly when a request came after the fetch started. */
  ghost predicate FetchesAsAsked(s: PortalState) {
    s.fetchSince <= s.requests && (s.refreshing && !s.closed ==> (s.refreshAgain <==> s.fetchSince < s.requests))
  }

  lemma StepFetchesAsAsked(s: PortalState, event: Event)
    requires FetchesAsAsked(s)
    ensures FetchesAsAsked(Step(s, event))
  {
    hide Assignments, Filter, Releases, Remove, SameIn, BindStep, ListStep;
    match event
    case BindAnswered(reply) => if s.started && !s.bindDone { BindLeavesFetch(s.(bindDone := true), reply); }
    case ListAnswered(reply) => if s.inFlight > 0 { ListFetchesAsAsked(s.(inFlight := s.inFlight - 1), reply); }
    case _ =>
  }

  lemma ListFetchesAsAsked(s: PortalState, reply: ListReply)
    requires FetchesAsAsked(s)
    ensures FetchesAsAsked(ListStep(s, reply))
  {
    hide Assignments, Filter, Releases, SameIn;
  }

  lemma BindLeavesFetch(s: PortalState, reply: BindReply)
    ensures var t := BindStep(s, reply);
            && t.refreshing == s.refreshing && t.refreshAgain == s.refreshAgain
            && t.fetchSince == s.fetchSince && t.requests == s.requests && (s.closed ==> t.closed)
  {
    hide Assignments, Filter, Releases, SameIn;
  }

  lemma {:induction false} RunFetchesAsAsked(events: seq<Event>)
    ensures FetchesAsAsked(Run(Fresh(), events))
  {
    hide Step;
    if events != [] {
      RunFetchesAsAsked(events[..|events| - 1]);
      StepFetchesAsAsked(Run(Fresh(), events[..|events| - 1]), events[|events| - 1]);
    }
  }

  /** Every run: a list that arrives at an open portal is fetched again iff it was requested since its fetch began. */
  lemma FetchedAgainIff(events: seq<Event>, entries: seq<Entry>)
    requires var s := Run(Fresh(), events); s.inFlight > 0 && !s.closed
    ensures var s, t := Run(Fresh(), events), Step(Run(Fresh(), events), ListAnswered(Listed(entries)));
            && !t.closed && t.shown == entries
            && t.inFlight == if s.fetchSince < s.requests then 1 else 0
  {
    hide Assignments, Filter, Releases, SameIn, Run;
    RunFetchesAsAsked(events);
    RefreshesAreNotLost(events);
  }

  /** Every run: one list fetch at a time, and whenever none is out, the shown list answers the latest request. */
  lemma {:induction false} RefreshesAreNotLost(events: seq<Event>)
    ensures NoRefreshLost(Run(Fresh(), events))
  {
    if events != [] {
      RefreshesAreNotLost(events[..|events| - 1]);
      StepLosesNoRefresh(Run(Fresh(), events[..|events| - 1]), events[|events| - 1]);
    }
  }

  /** Stopping releases whatever is held, and nothing that arrives later calls an action. */
  lemma {:induction false} SilentAfterStop(s: PortalState, later: seq<Event>)
    requires ActionsTracked(s)
    ensures var stopped := Step(s, Stopped);
            && Run(stopped, later).closed
            && Run(stopped, later).active == []
            && Run(stopped, later).calls == stopped.calls
            && (forall id :: !Held(stopped.calls, id))
  {
    hide Tracks, Held;
    var stopped := Step(s, Stopped);
    StopTracks(s);
    NothingHeld(stopped);
    if later != [] {
      SilentAfterStop(s, later[..|later| - 1]);
      ClosedIsSilent(Run(stopped, later[..|later| - 1]), later[|later| - 1]);
    }
  }

  lemma NothingHeld(s: PortalState)
    requires ActionsTracked(s) && s.closed
    ensures forall id :: !Held(s.calls, id)
  {
    forall id ensures !Held(s.calls, id) {
      assert id in s.active <==> Held(s.calls, id);
    }
  }

  lemma ClosedIsSilent(s: PortalState, event: Event)
    requires s.closed && s.active == []
    ensures var t := Step(s, event); t.closed && t.active == [] && t.calls == s.calls
  {
    assert forall keep :: Filter(keep, s.active) == [];
    assert s.calls + Releases([]) == s.calls;
  }

  /** A new list keeps an action held exactly when it was held and its assignment is the same as before. */
  lemma ListReleasesChanged(s: PortalState, entries: seq<Entry>, id: string)
    requires ActionsTracked(s)
    ensures var t := SetShortcuts(s, entries);
            && (id in t.active <==> id in s.active && Assigned(t.shortcuts, id) == Assigned(s.shortcuts, id))
            && (Held(t.calls, id) <==> id in t.active)
  {
    SetTracks(s, entries);
  }

  /** Splitting a run in two. */
  lemma {:induction false} RunJoins(s: PortalState, a: seq<Event>, b: seq<Event>)
    ensures Run(s, a + b) == Run(Run(s, a), b)
  {
    if b == [] {
      assert a + b == a;
    } else {
      assert (a + b)[..|a + b| - 1] == a + b[..|b| - 1];
      RunJoins(s, a, b[..|b| - 1]);
    }
  }

  /** In any run, everything held is released at a stop and no action call follows it. */
  lemma StopEndsTheCalls(before: seq<Event>, later: seq<Event>)
    ensures var cut, whole := Run(Fresh(), before), Run(Fresh(), before + [Stopped] + later);
            && whole.calls == cut.calls + Releases(cut.active)
            && whole.active == []
            && (forall id :: !Held(whole.calls, id))
  {
    var cut := Run(Fresh(), before);
    RunTracks(before);
    SilentAfterStop(cut, later);
    RunJoins(Fresh(), before, [Stopped]);
    RunOne(cut, Stopped);
    RunJoins(Fresh(), before + [Stopped], later);
    assert cut.active == [] ==> cut.calls + Releases(cut.active) == cut.calls;
  }

  lemma RunOne(s: PortalState, event: Event)
    ensures Run(s, [event]) == Step(s, event)
  {
    assert Run(s, [event][..0]) == s;
  }
}
