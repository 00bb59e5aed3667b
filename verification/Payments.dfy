/**
 payment-service at work: the projectors that write its mirror tables, the poll that waits for a
 version, and the worker that settles a booking once the mirror includes its end.
 */
module Payments {
  import opened Bookings
  import opened Mirror
  import opened Overtaking
  import opened PipelineSafety
  import opened Versions
  import opened Wrappers
  import P = Pipeline

  /** The `booking` mirror table and its projector. */
  class MirrorTable {
    var rows: map<Id, P.Row<BookingMirror>>

    /** Inserts the row under version 0. On a row that is there it sets every column the new row has a
        value for, and not the version. */
    method Upsert(id: Id, row: BookingMirror)
      modifies this
      ensures rows == old(rows)[id := if id !in old(rows) then P.Row(0, row)
                                      else P.Row(old(rows)[id].version, Merged(old(rows)[id].data, row))]
    {
      rows := rows[id := if id !in rows then P.Row(0, row) else rows[id].(data := Merged(rows[id].data, row))];
    }

    method Transition(id: Id, from: seq<Status>, to: Status, release: Option<ReleaseReason>, cancel: Option<CancelReason>)
      returns (changed: Changed)
      modifies this
      ensures changed == Yes <==> id in old(rows) && old(rows)[id].data.status in from
      ensures rows == if id !in old(rows) || old(rows)[id].data.status !in from then old(rows) else
        old(rows)[id := old(rows)[id].(data := old(rows)[id].data.(status := to, holdUntil := None,
          cancelReason := Else(cancel, old(rows)[id].data.cancelReason), releaseReason := Else(release, old(rows)[id].data.releaseReason)))]
    {
      changed := No;
      if id in rows && rows[id].data.status in from {
        var d := rows[id].data;
        rows := rows[id := rows[id].(data := d.(status := to, holdUntil := None,
          cancelReason := if cancel.Some? then cancel else d.cancelReason,
          releaseReason := if release.Some? then release else d.releaseReason))];
        changed := Yes;
      }
    }

    method Record(id: Id, version: int)
      modifies this
      ensures rows == if id in old(rows) then old(rows)[id := old(rows)[id].(version := SetVersion(old(rows)[id].version, version))] else old(rows)
    {
      if id in rows && rows[id].version < version {
        rows := rows[id := rows[id].(version := version)];
      }
    }

    /** One BOOKINGS event: its arm, then the version. Whether a transition matched is ignored: a
        projector mints nothing. */
    method Apply(env: Envelope)
      modifies this
      ensures var row := P.ApplyRow(MirrorStep, P.RowOf(old(rows), env.agg), env);
        rows == if row.Some? then old(rows)[env.agg := row.value] else old(rows)
    {
      var id := env.agg;
      match env.payload {
        case BookingCreated(b) => Upsert(id, MirrorCreated(b));
        case BookingConfirmed => var _ := Transition(id, [Reserved], Confirmed, None, None);
        case BookingReleased(why) => var _ := Transition(id, [Reserved], Released, Some(why), None);
        case BookingCancelled(who) => var _ := Transition(id, [Confirmed], Cancelled, None, Some(who));
        case BookingRated(_) =>
      }
      Record(id, env.version);
      ghost var row := P.ApplyRow(MirrorStep, P.RowOf(old(rows), id), env);
      assert rows == if row.Some? then old(rows)[id := row.value] else old(rows);
    }
  }

  // ---------------------------------------------------------------- waiting for a version

  /** `reached`: polls until the version is there, the aggregate turns out not to be stored, or the
      time is up. `polls` are the answers there was time for, and `stop` is the one it succeeded on. */
  method Reached(polls: seq<Applied>, want: int) returns (reached: bool, ghost stop: nat)
    ensures reached <==> exists i :: 0 <= i < |polls| && polls[i].At? && polls[i].version >= want && forall j :: 0 <= j < i ==> !polls[j].Unavailable?
    ensures reached ==> stop < |polls| && polls[stop].At? && polls[stop].version >= want
    ensures reached ==> forall j :: 0 <= j < stop ==> polls[j].Pending? || (polls[j].At? && polls[j].version < want)
  {
    var i := 0;
    stop := 0;
    while i < |polls|
      invariant 0 <= i <= |polls|
      invariant forall j :: 0 <= j < i ==> polls[j].Pending? || (polls[j].At? && polls[j].version < want)
    {
      match polls[i] {
        case At(have) =>
          if have >= want {
            stop := i;
            return true, stop;
          }
        case Pending =>
        case Unavailable => return false, stop;
      }
      i := i + 1;
    }
    reached := false;
  }

  /** The worker that refunds or voids a payment when its booking ends. `settled` is the bookings it
      has called `settle_up` for, in order. */
  class BookingWorker {
    var settled: seq<Id>

    constructor ()
      ensures settled == []
    {
      settled := [];
    }

    /** Nothing happens for an event that does not end its booking, or before the mirror has been
        seen to include the event; then, and only then, one settlement. */
    method Handle(env: Envelope, polls: seq<Applied>) returns (ok: bool, ghost stop: nat)
      modifies this
      ensures !env.payload.BookingReleased? && !env.payload.BookingCancelled? ==> ok && settled == old(settled)
      ensures !ok ==> settled == old(settled)
      ensures env.payload.BookingReleased? || env.payload.BookingCancelled? ==>
        (ok <==> exists i :: 0 <= i < |polls| && polls[i].At? && polls[i].version >= env.version && forall j :: 0 <= j < i ==> !polls[j].Unavailable?)
      ensures ok && (env.payload.BookingReleased? || env.payload.BookingCancelled?) ==> settled == old(settled) + [env.agg]
      ensures settled != old(settled) ==> stop < |polls| && polls[stop].At? && polls[stop].version >= env.version
    {
      stop := 0;
      match env.payload {
        case BookingReleased(_) =>
        case BookingCancelled(_) =>
        case _ => return true, stop;
      }
      ok, stop := Reached(polls, env.version);
      if ok {
        settled := settled + [env.agg];
      }
    }

    /**
     The worker beside a run of the pipeline, on answers read from it. When it settles, the row its wait
     stopped at was released or cancelled, unless a later event had overtaken the second one; with no
     gap of the booking forced, always. When the booking's end was seen, it does settle.
     */
    method HandleInRun(env: Envelope, polls: seq<Applied>, ghost s: State, ghost acts: seq<Action>, ghost cuts: seq<nat>)
      returns (ok: bool, ghost stop: nat)
      requires P.Init(s) && P.Run(MirrorStep, s, acts) && Legal(env.agg, P.LogOf(P.After(MirrorStep, s, acts).log, env.agg))
      requires 1 <= env.version <= |P.LogOf(P.After(MirrorStep, s, acts).log, env.agg)|
      requires P.LogOf(P.After(MirrorStep, s, acts).log, env.agg)[env.version - 1] == env
      requires |cuts| == |polls| && forall i :: 0 <= i < |polls| ==> Polled(s, acts, cuts[i], env.agg, polls[i])
      modifies this
      ensures settled == old(settled) || settled == old(settled) + [env.agg]
      ensures settled != old(settled) ==>
        && (env.payload.BookingReleased? || env.payload.BookingCancelled?)
        && stop < |polls| && cuts[stop] <= |acts| && P.Run(MirrorStep, s, acts[..cuts[stop]])
        && var t := P.After(MirrorStep, s, acts[..cuts[stop]]);
           && env.agg in t.rows && polls[stop] == At(t.rows[env.agg].version) && t.rows[env.agg].version == env.version
           && (t.rows[env.agg].data.status == Released || t.rows[env.agg].data.status == Cancelled
               <==> 2 in P.EffectsOf(t.effects, env.agg))
           && (t.rows[env.agg].data.status == Released || t.rows[env.agg].data.status == Cancelled
               || Overtaken(MirrorStep, s, acts[..cuts[stop]], env.agg))
           && (P.Unforced(MirrorStep, s, acts, env.agg) ==>
                 t.rows[env.agg].data.status == Released || t.rows[env.agg].data.status == Cancelled)
      ensures (env.payload.BookingReleased? || env.payload.BookingCancelled?)
        && (exists i :: 0 <= i < |polls| && polls[i].At? && polls[i].version >= env.version)
        ==> ok && settled == old(settled) + [env.agg]
    {
      ok, stop := Handle(env, polls);
      if settled != old(settled) {
        assert Polled(s, acts, cuts[stop], env.agg, polls[stop]);
        SettledFrom(s, acts, cuts[stop], env.agg, env.version);
        StoppedAt(s, acts, cuts[stop], env);
      }
      assert forall i :: 0 <= i < |polls| ==> !polls[i].Unavailable? by {
        forall i | 0 <= i < |polls| ensures !polls[i].Unavailable? {
          assert Polled(s, acts, cuts[i], env.agg, polls[i]);
        }
      }
    }
  }

  /** The row a settling worker was answered from. */
  lemma StoppedAt(s: State, acts: seq<Action>, n: nat, env: Envelope)
    requires P.Init(s) && P.Run(MirrorStep, s, acts) && n <= |acts| && P.Run(MirrorStep, s, acts[..n])
    requires var es := P.LogOf(P.After(MirrorStep, s, acts).log, env.agg);
      Legal(env.agg, es) && 1 <= env.version <= |es| && es[env.version - 1] == env
    requires env.payload.BookingReleased? || env.payload.BookingCancelled?
    requires env.version <= P.StoredOf(P.After(MirrorStep, s, acts[..n]).rows, env.agg)
    ensures var t := P.After(MirrorStep, s, acts[..n]);
      env.agg in t.rows && t.rows[env.agg].version == env.version
  {
    P.RunSplit(MirrorStep, s, acts, n, env.agg);
    RunFromInit(s, acts[..n]);
    var t := P.After(MirrorStep, s, acts[..n]);
    RunMonotone(MirrorStep, t, acts[n..], env.agg);
    LastOfAll(env.agg, t, P.LogOf(P.After(MirrorStep, s, acts).log, env.agg), env.version);
  }

  lemma LastOfAll(a: Id, t: State, es: seq<Envelope>, v: nat)
    requires Inv(MirrorStep, t) && P.LogOf(t.log, a) <= es && Legal(a, es) && 1 <= v <= |es|
    requires es[v - 1].payload.BookingReleased? || es[v - 1].payload.BookingCancelled?
    requires v <= P.StoredOf(t.rows, a)
    ensures a in t.rows && t.rows[a].version == v
  {
    assert RowOK(MirrorStep, t.log, a, t.rows[a]);
    TerminalIsLast(a, es, v);
  }

  /** The reader's answer for booking `a` after the first `n` steps of a run. */
  ghost predicate Polled(s: State, acts: seq<Action>, n: nat, a: Id, answer: Applied) {
    && n <= |acts| && P.Run(MirrorStep, s, acts[..n])
    && answer == AppliedOf(P.VersionOf(P.RowOf(P.After(MirrorStep, s, acts[..n]).rows, a)))
  }

  /** A poll after any step of a run answers the version of the row, or that there is none. */
  lemma PollAnswers(s: State, acts: seq<Action>, n: nat, a: Id)
    requires n <= |acts| && P.Run(MirrorStep, s, acts[..n])
    ensures var rows := P.After(MirrorStep, s, acts[..n]).rows;
      Polled(s, acts, n, a, if a in rows then At(rows[a].version) else Pending)
  {
  }

  ghost predicate EndedAt(s: State, acts: seq<Action>, n: nat, a: Id) {
    n <= |acts| && P.Run(MirrorStep, s, acts[..n]) && EndedIn(P.After(MirrorStep, s, acts[..n]).rows, a)
  }

  /** The owner's second event had taken effect on the mirror after the first `n` steps. */
  ghost predicate SecondTook(s: State, acts: seq<Action>, n: nat, a: Id) {
    n <= |acts| && P.Run(MirrorStep, s, acts[..n]) && 2 in P.EffectsOf(P.After(MirrorStep, s, acts[..n]).effects, a)
  }

  /** A later event had overtaken the second one by then. */
  ghost predicate OvertakenAt(s: State, acts: seq<Action>, n: nat, a: Id) {
    n <= |acts| && P.Run(MirrorStep, s, acts[..n]) && Overtaken(MirrorStep, s, acts[..n], a)
  }

  /** Row `a` holds the owner's ended booking. */
  ghost predicate HoldsTheEnd(t: State, a: Id) {
    && EndedIn(t.rows, a) && t.rows[a].version == |P.LogOf(t.log, a)|
    && Replay(a, P.LogOf(t.log, a)).Some? && t.rows[a].data == MirrorOf(Replay(a, P.LogOf(t.log, a)).value)
  }

  /**
   The worker's wait and the pipeline together. `Handle` settles booking `a` for its ending event `v`
   when one of its polls answers `v` or more. Whichever of the answers polled during a run it stopped
   at: the row that answer was read from was ended if and only if the owner's second event had taken
   effect, which is when the hatch had let no later event overtake it, so always if no gap of the
   booking was forced; and if it was ended, the row holds the owner's ended booking at the end of the
   run too.
   */
  lemma WorkerSettlesSafely(s: State, acts: seq<Action>, cuts: seq<nat>, polls: seq<Applied>, a: Id, v: nat)
    requires P.Init(s) && P.Run(MirrorStep, s, acts)
    requires Legal(a, P.LogOf(P.After(MirrorStep, s, acts).log, a))
    requires 1 <= v <= |P.LogOf(P.After(MirrorStep, s, acts).log, a)|
    requires Ends(P.LogOf(P.After(MirrorStep, s, acts).log, a)[v - 1].payload)
    requires |cuts| == |polls| && forall i :: 0 <= i < |polls| ==> Polled(s, acts, cuts[i], a, polls[i])
    ensures forall i | 0 <= i < |polls| && polls[i].At? && polls[i].version >= v ::
      && (EndedAt(s, acts, cuts[i], a) <==> SecondTook(s, acts, cuts[i], a))
      && (EndedAt(s, acts, cuts[i], a) <==> !OvertakenAt(s, acts, cuts[i], a))
      && (P.Unforced(MirrorStep, s, acts, a) ==> EndedAt(s, acts, cuts[i], a))
      && (EndedAt(s, acts, cuts[i], a) ==> HoldsTheEnd(P.After(MirrorStep, s, acts), a))
  {
    forall i | 0 <= i < |polls| && polls[i].At? && polls[i].version >= v
      ensures EndedAt(s, acts, cuts[i], a) <==> SecondTook(s, acts, cuts[i], a)
      ensures EndedAt(s, acts, cuts[i], a) <==> !OvertakenAt(s, acts, cuts[i], a)
      ensures P.Unforced(MirrorStep, s, acts, a) ==> EndedAt(s, acts, cuts[i], a)
      ensures EndedAt(s, acts, cuts[i], a) ==> HoldsTheEnd(P.After(MirrorStep, s, acts), a)
    {
      assert Polled(s, acts, cuts[i], a, polls[i]);
      SettledFrom(s, acts, cuts[i], a, v);
    }
  }

  lemma SettledFrom(s: State, acts: seq<Action>, n: nat, a: Id, v: nat)
    requires P.Init(s) && P.Run(MirrorStep, s, acts) && n <= |acts| && P.Run(MirrorStep, s, acts[..n])
    requires Legal(a, P.LogOf(P.After(MirrorStep, s, acts).log, a))
    requires 1 <= v <= |P.LogOf(P.After(MirrorStep, s, acts).log, a)|
    requires Ends(P.LogOf(P.After(MirrorStep, s, acts).log, a)[v - 1].payload)
    requires v <= P.StoredOf(P.After(MirrorStep, s, acts[..n]).rows, a)
    ensures EndedAt(s, acts, n, a) <==> SecondTook(s, acts, n, a)
    ensures EndedAt(s, acts, n, a) <==> !OvertakenAt(s, acts, n, a)
    ensures P.Unforced(MirrorStep, s, acts, a) ==> EndedAt(s, acts, n, a)
    ensures EndedAt(s, acts, n, a) ==> HoldsTheEnd(P.After(MirrorStep, s, acts), a)
  {
    P.RunSplit(MirrorStep, s, acts, n, a);
    RunFromInit(s, acts[..n]);
    var t := P.After(MirrorStep, s, acts[..n]);
    RunMonotone(MirrorStep, t, acts[n..], a);
    assert RowOK(MirrorStep, t.log, a, t.rows[a]);
    TerminalIsLast(a, P.LogOf(P.After(MirrorStep, s, acts).log, a), v);
    SettlementIsSafe(s, acts[..n], acts[n..], a, v);
    LegalBefore(t, acts[n..], a);
    EndsUnlessOvertaken(s, acts[..n], a, v);
    if EndedIn(t.rows, a) {
      ReachedEndsIff(s, acts, a, v);
    }
  }

  // ---------------------------------------------------------------- the host mirror

  datatype UserEvent = Registered(address: string) | Updated(email: Option<string>, country: Option<string>) | OtherUserEvent

  datatype Host = Host(email: string, country: Option<string>)

  /** The columns one USERS event writes: a registration never clears the country, an edit never
      creates the row, the rest write nothing. */
  function HostStep(d: Option<Host>, e: UserEvent): Option<Host> {
    match e
    case Registered(email) => Some(Host(email, if d.Some? then d.value.country else None))
    case Updated(email, country) =>
      if d.None? then None
      else Some(Host(if email.Some? then email.value else d.value.email, Else(country, d.value.country)))
    case OtherUserEvent => None
  }

  /** The last address and the last country a history mentions. */
  function LastEmail(es: seq<P.Envelope<UserEvent>>): Option<string> {
    if es == [] then None else
    match es[|es| - 1].payload
    case Registered(email) => Some(email)
    case Updated(email, _) => Else(email, LastEmail(es[..|es| - 1]))
    case OtherUserEvent => LastEmail(es[..|es| - 1])
  }

  function LastCountry(es: seq<P.Envelope<UserEvent>>): Option<string> {
    if es == [] then None else
    match es[|es| - 1].payload
    case Updated(_, country) => Else(country, LastCountry(es[..|es| - 1]))
    case _ => LastCountry(es[..|es| - 1])
  }

  /** The host mirror holds the last email and the last country mentioned so far, and a replayed
      registration clears neither. */
  lemma {:induction false} HostIsLastMention(es: seq<P.Envelope<UserEvent>>)
    requires es != [] && es[0].payload.Registered?
    ensures P.Creates(HostStep, es[0].payload) && LastEmail(es).Some?
    ensures P.Fold(HostStep, es) == Some(Host(LastEmail(es).value, LastCountry(es)))
    decreases |es|
  {
    if |es| > 1 {
      HostIsLastMention(es[..|es| - 1]);
    } else {
      assert es[..0] == [];
    }
  }

  /** The `host` mirror table and its projector. */
  class HostTable {
    var rows: map<Id, P.Row<Host>>

    method Apply(env: P.Envelope<UserEvent>)
      modifies this
      ensures var row := P.ApplyRow(HostStep, P.RowOf(old(rows), env.agg), env);
        rows == if row.Some? then old(rows)[env.agg := row.value] else old(rows)
    {
      var id := env.agg;
      match env.payload {
        case Registered(email) =>
          if id in rows {
            rows := rows[id := rows[id].(data := rows[id].data.(email := email))];
          } else {
            rows := rows[id := P.Row(0, Host(email, None))];
          }
        case Updated(email, country) =>
          if id in rows {
            if email.Some? {
              rows := rows[id := rows[id].(data := rows[id].data.(email := email.value))];
            }
            if country.Some? {
              rows := rows[id := rows[id].(data := rows[id].data.(country := country))];
            }
          }
        case OtherUserEvent =>
      }
      if id in rows && rows[id].version < env.version {
        rows := rows[id := rows[id].(version := env.version)];
      }
      ghost var row := P.ApplyRow(HostStep, P.RowOf(old(rows), id), env);
      assert rows == if row.Some? then old(rows)[id := row.value] else old(rows);
    }
  }
}
