// The press and release calls both push-to-talk backends make, and the set of actions they hold pressed.
module ActionLog {
  import opened Prelude

  datatype Call = Call(id: string, pressed: bool)

  /** Whether the last call for `id` was a press. */
  predicate Held(calls: seq<Call>, id: string) {
    calls != [] &&
    var last := calls[|calls| - 1];
    if last.id == id then last.pressed else Held(calls[..|calls| - 1], id)
  }

  /** Every call changes whether its action is held. */
  predicate Alternating(calls: seq<Call>) {
    calls == [] ||
    var init, last := calls[..|calls| - 1], calls[|calls| - 1];
    Alternating(init) && last.pressed != Held(init, last.id)
  }

  function Of(id: string): Call -> bool {
    (call: Call) => call.id == id
  }

  ghost predicate PressReleasePress(own: seq<Call>) {
    forall k :: 0 <= k < |own| ==> own[k].pressed == (k % 2 == 0)
  }

  lemma PressReleaseStep(own: seq<Call>, call: Call)
    requires PressReleasePress(own) && call.pressed == (|own| % 2 == 0)
    ensures PressReleasePress(own + [call])
  {
  }

  /** The calls for one action strictly alternate, starting with a press. */
  lemma {:induction false} AlternatesPerAction(calls: seq<Call>, id: string)
    requires Alternating(calls)
    ensures PressReleasePress(Filter(Of(id), calls))
    ensures Held(calls, id) <==> |Filter(Of(id), calls)| % 2 == 1
  {
    hide Filter, PressReleasePress;
    if calls == [] {
      NoCalls(id);
    } else {
      var n := |calls| - 1;
      var own := Filter(Of(id), calls[..n]);
      AlternatesPerAction(calls[..n], id);
      FilterStep(Of(id), calls, n);
      assert calls[..n + 1] == calls;
      if calls[n].id == id {
        PressReleaseStep(own, calls[n]);
      } else {
        assert own + [] == own;
      }
    }
  }

  lemma NoCalls(id: string)
    ensures Filter(Of(id), []) == [] && PressReleasePress([])
  {
  }

  lemma HeldAppend(calls: seq<Call>, call: Call, id: string)
    ensures Held(calls + [call], id) <==> if call.id == id then call.pressed else Held(calls, id)
    ensures Alternating(calls + [call]) <==> Alternating(calls) && call.pressed != Held(calls, call.id)
  {
    assert (calls + [call])[..|calls|] == calls;
  }

  /** The held set in insertion order agrees with the calls made so far. */
  ghost predicate Tracks(active: seq<string>, calls: seq<Call>) {
    Distinct(active) && Alternating(calls) && forall id :: id in active <==> Held(calls, id)
  }

  /** `Set.delete`. */
  function Remove(ids: seq<string>, id: string): seq<string> {
    Filter((x: string) => x != id, ids)
  }

  function Releases(ids: seq<string>): seq<Call> {
    Map((id: string) => Call(id, false), ids)
  }

  function Not(p: string -> bool): string -> bool {
    (id: string) => !p(id)
  }

  lemma {:induction false} FilterDistinct(p: string -> bool, ids: seq<string>)
    requires Distinct(ids)
    ensures Distinct(Filter(p, ids))
  {
    if ids != [] {
      FilterDistinct(p, ids[1..]);
      assert forall x | x in Filter(p, ids[1..]) :: x in ids[1..];
      assert forall x | x in ids[1..] :: x != ids[0];
    }
  }

  lemma PressTracks(active: seq<string>, calls: seq<Call>, id: string)
    requires Tracks(active, calls) && id !in active
    ensures Tracks(active + [id], calls + [Call(id, true)])
  {
    forall x ensures x in active + [id] <==> Held(calls + [Call(id, true)], x) {
      HeldAppend(calls, Call(id, true), x);
    }
    HeldAppend(calls, Call(id, true), id);
  }

  lemma {:induction false} ReleaseEach(active: seq<string>, calls: seq<Call>, ids: seq<string>)
    requires Tracks(active, calls) && Distinct(ids) && forall id | id in ids :: id in active
    ensures Alternating(calls + Releases(ids))
    ensures forall id :: Held(calls + Releases(ids), id) <==> id in active && id !in ids
  {
    hide Alternating, Held;
    if ids == [] {
      assert calls + Releases(ids) == calls;
    } else {
      var n := |ids| - 1;
      var before := calls + Releases(ids[..n]);
      assert ids == ids[..n] + [ids[n]];
      assert forall x | x in ids[..n] :: x in ids;
      ReleaseEach(active, calls, ids[..n]);
      assert calls + Releases(ids) == before + [Call(ids[n], false)];
      forall id ensures Held(calls + Releases(ids), id) <==> id in active && id !in ids {
        HeldAppend(before, Call(ids[n], false), id);
        assert id in ids <==> id in ids[..n] || id == ids[n];
      }
      assert ids[n] !in ids[..n] && ids[n] in active;
      HeldAppend(before, Call(ids[n], false), ids[n]);
    }
  }

  /** Releasing exactly the actions `keep` turns down keeps set and calls in step. */
  lemma ReleaseTracks(active: seq<string>, calls: seq<Call>, keep: string -> bool)
    requires Tracks(active, calls)
    ensures Tracks(Filter(keep, active), calls + Releases(Filter(Not(keep), active)))
  {
    FilterDistinct(keep, active);
    FilterDistinct(Not(keep), active);
    ReleaseEach(active, calls, Filter(Not(keep), active));
  }

  lemma {:induction false} RemoveAbsent(ids: seq<string>, id: string)
    requires id !in ids
    ensures Remove(ids, id) == ids
  {
    if ids != [] { RemoveAbsent(ids[1..], id); }
  }

  /** The held set when a loop over `ids`, deleting what `keep` turns down, stands at `i`. */
  function Left(keep: string -> bool, ids: seq<string>, i: int): seq<string>
    requires 0 <= i <= |ids|
  {
    Filter(keep, ids[..i]) + ids[i..]
  }

  /** The calls that loop has made. */
  function Gone(keep: string -> bool, ids: seq<string>, i: int): seq<Call>
    requires 0 <= i <= |ids|
  {
    Releases(Filter(Not(keep), ids[..i]))
  }

  lemma DropStep(keep: string -> bool, ids: seq<string>, i: int)
    requires Distinct(ids) && 0 <= i < |ids|
    ensures keep(ids[i]) ==> Left(keep, ids, i + 1) == Left(keep, ids, i)
    ensures keep(ids[i]) ==> Gone(keep, ids, i + 1) == Gone(keep, ids, i)
    ensures !keep(ids[i]) ==> Left(keep, ids, i + 1) == Remove(Left(keep, ids, i), ids[i])
    ensures !keep(ids[i]) ==> Gone(keep, ids, i + 1) == Gone(keep, ids, i) + [Call(ids[i], false)]
  {
    hide Filter;
    var id := ids[i];
    var kept, dropped := Filter(keep, ids[..i]), Filter(Not(keep), ids[..i]);
    FilterStep(keep, ids, i);
    FilterStep(Not(keep), ids, i);
    assert ids[i..] == [id] + ids[i + 1..];
    if keep(id) {
      assert kept + [id] + ids[i + 1..] == kept + ids[i..];
      assert dropped + [] == dropped;
    } else {
      assert id !in ids[i + 1..] && id !in ids[..i];
      FilterConcat((x: string) => x != id, kept, ids[i..]);
      FilterConcat((x: string) => x != id, [id], ids[i + 1..]);
      RemoveAbsent(ids[i + 1..], id);
      RemoveAbsent(kept, id);
      RemoveOnly(id);
      assert kept + [] == kept && [] + ids[i + 1..] == ids[i + 1..];
    }
  }

  lemma RemoveOnly(id: string)
    ensures Remove([id], id) == []
  {
  }

  lemma DropEnds(keep: string -> bool, ids: seq<string>)
    ensures Left(keep, ids, 0) == ids && Gone(keep, ids, 0) == []
    ensures Left(keep, ids, |ids|) == Filter(keep, ids) && Gone(keep, ids, |ids|) == Releases(Filter(Not(keep), ids))
  {
    assert ids[..|ids|] == ids;
  }
}
