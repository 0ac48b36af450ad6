/** When a changed setting should reach flash: one timer per field, each restarted by every change. */
module Debounce {
  import opened Common

  const QUIET_MS: nat := 3000
  const FIELDS: nat := 3

  /** A setting, in the order they are looked at: the name, the brightness, the idle mode. */
  type Field = f: nat | f < FIELDS

  const NAME: Field := 0
  const BRIGHTNESS: Field := 1
  const IDLE_MODE: Field := 2

  /** When each field changed, if it has and has not been handed out since. */
  type Pending = p: seq<Option<nat>> | |p| == FIELDS witness [None, None, None]

  function Nothing(): Pending {
    [None, None, None]
  }

  function Since(now: nat, at: nat): nat {
    if at <= now then now - at else 0
  }

  predicate Quiet(p: Pending, f: Field, now: nat) {
    p[f].Some? && Since(now, p[f].value) >= QUIET_MS
  }

  /** How much longer this field has to sit. */
  function Left(at: nat, now: nat): nat {
    if Since(now, at) >= QUIET_MS then 0 else QUIET_MS - Since(now, at)
  }

  /** The first field, from `f` on, that has been quiet long enough. */
  function FirstQuiet(p: Pending, f: nat, now: nat): (r: Option<Field>)
    requires f <= FIELDS
    ensures r.Some? ==> f <= r.value && Quiet(p, r.value, now) && forall g: Field :: f <= g < r.value ==> !Quiet(p, g, now)
    ensures r.None? ==> forall g: Field :: f <= g ==> !Quiet(p, g, now)
    decreases FIELDS - f
  {
    if f == FIELDS then None else if Quiet(p, f, now) then Some(f) else FirstQuiet(p, f + 1, now)
  }

  /** The shortest time any of the first `n` fields has left. */
  function Shortest(p: Pending, n: nat, now: nat): (r: Option<nat>)
    requires n <= FIELDS
    ensures r.None? <==> forall g: Field :: g < n ==> p[g].None?
    ensures r.Some? ==>
      && (forall g: Field :: g < n && p[g].Some? ==> r.value <= Left(p[g].value, now))
      && exists g: Field :: g < n && p[g].Some? && r.value == Left(p[g].value, now)
  {
    if n == 0 then None
    else
      var before := Shortest(p, n - 1, now);
      if p[n - 1].None? then before
      else
        var left := Left(p[n - 1].value, now);
        if before.None? || left < before.value then Some(left) else before
  }

  /** The sleep is over exactly when there is a field to hand out. */
  lemma ZeroExactlyWhenDue(p: Pending, now: nat)
    ensures Shortest(p, FIELDS, now) == Some(0) <==> FirstQuiet(p, 0, now).Some?
    ensures Shortest(p, FIELDS, now).Some? ==> Shortest(p, FIELDS, now).value <= QUIET_MS
  {
    var r := Shortest(p, FIELDS, now);
    if r.Some? {
      var g: Field :| p[g].Some? && r.value == Left(p[g].value, now);
      assert r.value == 0 ==> Quiet(p, g, now);
    }
  }

  /** After sleeping for as long as it said, and no less, there is a field to hand out. */
  lemma DueExactlyAfterTheSleep(p: Pending, now: nat, later: nat)
    requires Shortest(p, FIELDS, now).Some? && now <= later
    requires forall f: Field :: p[f].Some? ==> p[f].value <= now
    ensures FirstQuiet(p, 0, later).Some? <==> later >= now + Shortest(p, FIELDS, now).value
  {
    var ms := Shortest(p, FIELDS, now).value;
    var g: Field :| p[g].Some? && ms == Left(p[g].value, now);
    assert later >= now + ms ==> Quiet(p, g, later);
    if later < now + ms {
      forall f: Field | p[f].Some? ensures !Quiet(p, f, later) {
        assert ms <= Left(p[f].value, now);
      }
    }
  }

  /** A field is handed out once it has not changed for three seconds: the first of those that have not, in their order.
      A clock that is behind the change counts as the change having just been made. */
  lemma HandedOutExactlyWhen(p: Pending, now: nat, f: Field)
    ensures
      FirstQuiet(p, 0, now) == Some(f) <==>
        && p[f].Some? && now >= p[f].value + 3000
        && forall g: Field :: g < f && p[g].Some? ==> now < p[g].value + 3000
    ensures
      Shortest(p, FIELDS, now) == Some(3000) <==>
        (exists g: Field :: p[g].Some?) && forall g: Field :: p[g].Some? ==> now <= p[g].value
  {
    var r := Shortest(p, FIELDS, now);
    if r.Some? {
      var g: Field :| p[g].Some? && r.value == Left(p[g].value, now);
      assert now <= p[g].value <==> Left(p[g].value, now) == 3000;
    }
    assert Quiet(p, f, now) <==> p[f].Some? && now >= p[f].value + 3000;
    forall g: Field | p[g].Some? ensures Quiet(p, g, now) <==> now >= p[g].value + 3000 {
    }
  }

  class Timers {
    const changedAt: array<Option<nat>>

    ghost predicate Valid()
    {
      changedAt.Length == FIELDS
    }

    function Contents(): Pending
      requires changedAt.Length == FIELDS
      reads changedAt
    {
      changedAt[..]
    }

    constructor ()
      ensures Valid() && Contents() == Nothing() && fresh(changedAt)
    {
      changedAt := new Option<nat>[FIELDS](_ => None);
    }

    method NoteChange(f: Field, now: nat)
      requires Valid()
      modifies changedAt
      ensures Contents() == old(Contents())[f := Some(now)]
    {
      changedAt[f] := Some(now);
    }

    method Cancel(f: Field)
      requires Valid()
      modifies changedAt
      ensures Contents() == old(Contents())[f := None]
    {
      changedAt[f] := None;
    }

    /** Hands out a field that has been quiet long enough, and forgets it. */
    method Due(now: nat) returns (r: Option<Field>)
      requires Valid()
      modifies changedAt
      ensures r == FirstQuiet(old(Contents()), 0, now)
      ensures Contents() == if r.Some? then old(Contents())[r.value := None] else old(Contents())
    {
      for f := 0 to FIELDS
        invariant Contents() == old(Contents())
        invariant FirstQuiet(Contents(), 0, now) == FirstQuiet(Contents(), f, now)
      {
        var at := changedAt[f];
        if at.Some? && Since(now, at.value) >= QUIET_MS {
          changedAt[f] := None;
          return Some(f);
        }
      }
      return None;
    }

    method IsIdle() returns (idle: bool)
      requires Valid()
      ensures idle <==> Contents() == Nothing()
    {
      idle := true;
      for f := 0 to FIELDS
        invariant idle <==> forall g: Field :: g < f ==> changedAt[g].None?
      {
        idle := idle && changedAt[f].None?;
      }
    }

    method NextDueInMs(now: nat) returns (ms: Option<nat>)
      requires Valid()
      ensures ms == Shortest(Contents(), FIELDS, now)
    {
      ms := None;
      for f := 0 to FIELDS
        invariant ms == Shortest(Contents(), f, now)
      {
        var at := changedAt[f];
        if at.Some? {
          var left := Left(at.value, now);
          if ms.None? || left < ms.value {
            ms := Some(left);
          }
        }
      }
    }
  }
}
