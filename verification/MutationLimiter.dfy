/** The in-memory limiter for mutating requests: a pruned list of stamps per address
    enforces the same bound as the full history would. */
module MutationLimiter {
  const WINDOW := 60.0
  const MAX_REQUESTS := 30

  type Stamps = seq<real>

  function Entries(log: map<string, Stamps>, ip: string): Stamps {
    if ip in log then log[ip] else []
  }

  function Recent(entries: Stamps, now: real): Stamps {
    if entries == [] then []
    else
      var last := entries[|entries| - 1];
      Recent(entries[..|entries| - 1], now) + if now - last < WINDOW then [last] else []
  }

  /** The grants less than a minute old. */
  ghost function YoungGrants(entries: Stamps, now: real): set<int> {
    set i | 0 <= i < |entries| && now - entries[i] < 60.0
  }

  lemma {:induction false} RecentIsYoung(entries: Stamps, now: real)
    ensures |Recent(entries, now)| == |YoungGrants(entries, now)|
  {
    if entries != [] {
      var rest, last := entries[..|entries| - 1], entries[|entries| - 1];
      RecentIsYoung(rest, now);
      assert YoungGrants(entries, now) == YoungGrants(rest, now) + if now - last < 60.0 then {|rest|} else {};
    }
  }

  predicate Limited(verb: string, path: string) {
    verb in {"POST", "PUT", "DELETE", "PATCH"} && "/api/v1/" <= path
  }

  // ------------------------------------------------------------- what pruning keeps

  /** From `clock` on, nobody can tell the two lists apart. */
  ghost predicate Agree(a: Stamps, b: Stamps, clock: real) {
    forall now: real :: now >= clock ==> Recent(a, now) == Recent(b, now)
  }

  lemma {:induction false} RecentOfRecent(entries: Stamps, earlier: real, now: real)
    requires earlier <= now
    ensures Recent(Recent(entries, earlier), now) == Recent(entries, now)
  {
    if entries != [] {
      var rest, last := entries[..|entries| - 1], entries[|entries| - 1];
      RecentOfRecent(rest, earlier, now);
      var kept := Recent(rest, earlier);
      assert (kept + [last])[..|kept|] == kept;
      assert kept + [] == kept;
    }
  }

  // --------------------------------------------------------------- whole histories

  /** Fewer than the maximum of earlier stamps were recent when each one was granted. */
  ghost predicate Admitted(granted: Stamps) {
    forall i | 0 <= i < |granted| :: |Recent(granted[..i], granted[i])| < MAX_REQUESTS
  }

  function InWindow(granted: Stamps, from: real): Stamps {
    if granted == [] then []
    else
      var last := granted[|granted| - 1];
      InWindow(granted[..|granted| - 1], from) + if from <= last < from + WINDOW then [last] else []
  }

  lemma {:induction false} WindowIsRecent(granted: Stamps, from: real, now: real)
    requires from <= now < from + WINDOW
    ensures |InWindow(granted, from)| <= |Recent(granted, now)|
  {
    if granted != [] { WindowIsRecent(granted[..|granted| - 1], from, now); }
  }

  /** The same in terms of sets of grants. */
  lemma NoMinuteExceeds(granted: Stamps, from: real)
    requires Admitted(granted)
    ensures |GrantsIn(granted, from)| <= 30
  {
    WindowBound(granted, from);
    InWindowIsSize(granted, from);
  }

  ghost function GrantsIn(granted: Stamps, from: real): set<int> {
    set i | 0 <= i < |granted| && from <= granted[i] < from + 60.0
  }

  lemma {:induction false} InWindowIsSize(granted: Stamps, from: real)
    ensures |InWindow(granted, from)| == |GrantsIn(granted, from)|
  {
    if granted != [] {
      var rest, last := granted[..|granted| - 1], granted[|granted| - 1];
      InWindowIsSize(rest, from);
      assert GrantsIn(granted, from) == GrantsIn(rest, from) + if from <= last < from + 60.0 then {|rest|} else {};
    }
  }

  /** No window of sixty seconds, open at its end, holds more than thirty grants. */
  lemma {:induction false} WindowBound(granted: Stamps, from: real)
    requires Admitted(granted)
    ensures |InWindow(granted, from)| <= MAX_REQUESTS
  {
    if granted != [] {
      var rest, last := granted[..|granted| - 1], granted[|granted| - 1];
      forall i | 0 <= i < |rest| ensures |Recent(rest[..i], rest[i])| < MAX_REQUESTS {
        assert rest[..i] == granted[..i];
      }
      WindowBound(rest, from);
      if from <= last < from + WINDOW { WindowIsRecent(rest, from, last); }
    }
  }

  // ------------------------------------------------------------------- the limiter

  class Limiter {
    var log: map<string, Stamps>

    /** Every stamp ever granted, and the last reading of the monotonic clock. */
    ghost var granted: map<string, Stamps>
    ghost var clock: real

    ghost predicate Valid()
      reads this
    {
      forall ip: string :: Admitted(Entries(granted, ip)) && Agree(Entries(log, ip), Entries(granted, ip), clock)
    }

    constructor ()
      ensures Valid() && granted == map[]
    {
      log, granted, clock := map[], map[], 0.0;
    }

    /** A request is refused exactly when the full history holds thirty recent grants. */
    method Dispatch(verb: string, path: string, ip: string, now: real) returns (allowed: bool)
      requires Valid() && clock <= now
      modifies this
      ensures Valid() && clock == now
      ensures allowed <==> !Limited(verb, path) || |Recent(Entries(old(granted), ip), now)| < MAX_REQUESTS
      ensures allowed <==>
                verb !in ["POST", "PUT", "DELETE", "PATCH"] || !("/api/v1/" <= path) ||
                |YoungGrants(Entries(old(granted), ip), now)| < 30
      ensures granted == if allowed && Limited(verb, path)
                         then old(granted)[ip := Entries(old(granted), ip) + [now]] else old(granted)
    {
      clock := now;
      RecentIsYoung(Entries(granted, ip), now);
      if !Limited(verb, path) { return true; }
      ghost var log0, granted0 := log, granted;
      ghost var before := Entries(granted, ip);
      var kept := Recent(Entries(log, ip), now);
      PrunedAgrees(Entries(log, ip), before, now);
      log := log[ip := kept];
      if |kept| >= MAX_REQUESTS { return false; }
      log := log[ip := kept + [now]];
      granted := granted[ip := before + [now]];
      AppendAgrees(kept, before, now);
      AppendIsAdmitted(before, now);
      forall other: string
        ensures Admitted(Entries(granted, other)) && Agree(Entries(log, other), Entries(granted, other), now)
      {
        if other != ip {
          assert Entries(log, other) == Entries(log0, other) && Entries(granted, other) == Entries(granted0, other);
        }
      }
      return true;
    }
  }

  lemma PrunedAgrees(entries: Stamps, full: Stamps, now: real)
    requires Agree(entries, full, now)
    ensures Agree(Recent(entries, now), full, now) && Recent(entries, now) == Recent(full, now)
  {
    forall later: real | later >= now ensures Recent(Recent(entries, now), later) == Recent(full, later) {
      RecentOfRecent(entries, now, later);
    }
  }

  lemma AppendAgrees(entries: Stamps, full: Stamps, now: real)
    requires Agree(entries, full, now)
    ensures Agree(entries + [now], full + [now], now)
  {}

  lemma AppendIsAdmitted(granted: Stamps, now: real)
    requires Admitted(granted) && |Recent(granted, now)| < MAX_REQUESTS
    ensures Admitted(granted + [now])
  {
    var more := granted + [now];
    forall i | 0 <= i < |more| ensures |Recent(more[..i], more[i])| < MAX_REQUESTS {
      assert more[..i] == granted[..i];
    }
  }
}
