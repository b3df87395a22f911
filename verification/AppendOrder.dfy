/**
 Which runs of appenders keep recorded times in order along each aggregate (app/events.py): an appender
 reads the clock before it chooses its sequence slot, so a rival may insert in between.
 */
module AppendOrder {
  import opened Common
  import opened EventLog
  import opened Replay
  import opened EventStore

  /** Some appender arrives, or executes its next statement while the clock says `now`. */
  ghost predicate NextAt<B(!new)>(s: Store<B>, s': Store<B>, now: Time) {
    (exists t, request :: Arrives(s, s', t, request)) || (exists t :: Steps(s, s', t, now))
  }

  ghost predicate MovesAt<B(!new)>(run: seq<Store<B>>, clock: seq<Time>, i: int)
    requires 0 <= i < |run| - 1 && |clock| == |run|
  {
    NextAt(run[i], run[i + 1], clock[i])
  }

  /** A run under a clock that does not run backwards; `clock[i]` is what it says at moment `i`. */
  ghost predicate ClockedRun<B(!new)>(run: seq<Store<B>>, clock: seq<Time>) {
    && run != [] && |clock| == |run| && run[0] == Empty()
    && (forall i, j :: 0 <= i < j < |clock| ==> clock[i] <= clock[j])
    && (forall i {:trigger MovesAt(run, clock, i)} :: 0 <= i < |run| - 1 ==> MovesAt(run, clock, i))
  }

  lemma ClockedIsRun<B(!new)>(run: seq<Store<B>>, clock: seq<Time>, j: nat)
    requires ClockedRun(run, clock) && j < |run|
    ensures IsRun(run) && Inv(run[j])
  {
    forall i | 0 <= i < |run| - 1 ensures Next(run[i], run[i + 1]) {
      assert MovesAt(run, clock, i);
      var s, s', now := run[i], run[i + 1], clock[i];
      if t :| Steps(s, s', t, now) {
        assert Steps(s, s', t, now);
      }
    }
    RunKeepsInv(run, j);
  }

  /** Has read the clock and not yet inserted or given up. */
  predicate InFlight<B>(a: Appender<B>) {
    a.pc.CheckKey? || a.pc.ReadMax? || a.pc.Insert? || a.pc.CheckSlot?
  }

  predicate Waiting<B>(s: Store<B>, t: AppenderId) {
    t !in s.appenders || s.appenders[t].pc.Start?
  }

  predicate HasRead<B>(s: Store<B>, t: AppenderId) {
    t in s.appenders &&
    (InFlight(s.appenders[t]) || (s.appenders[t].pc.Returned? && s.appenders[t].pc.created))
  }

  /** One move leaves what an appender has read alone, and a reading is what the clock says. */
  lemma MoveKeepsReading<B(!new)>(s: Store<B>, s': Store<B>, now: Time, t: AppenderId)
    requires NextAt(s, s', now)
    ensures t in s.appenders ==> t in s'.appenders && s'.appenders[t].request == s.appenders[t].request
    ensures t in s.appenders && !Waiting(s, t) ==>
      !Waiting(s', t) && s'.appenders[t].recordedAt == s.appenders[t].recordedAt
    ensures t in s.appenders && !Waiting(s, t) && !InFlight(s.appenders[t]) ==> s'.appenders[t] == s.appenders[t]
    ensures Waiting(s, t) && HasRead(s', t) ==> s'.appenders[t].recordedAt == now
    ensures HasRead(s', t) && !Waiting(s, t) ==> HasRead(s, t)
    ensures s.rows <= s'.rows && s.writers <= s'.writers
  {
    if u :| Steps(s, s', u, now) {
      assert t != u && t in s.appenders ==> s'.appenders[t] == s.appenders[t];
    }
  }

  /** What has been read is not later than the clock. */
  lemma {:induction false} ReadingsArePast<B(!new)>(run: seq<Store<B>>, clock: seq<Time>, n: nat, t: AppenderId)
    requires ClockedRun(run, clock) && n < |run| && HasRead(run[n], t)
    ensures run[n].appenders[t].recordedAt <= clock[n]
  {
    if n > 0 {
      assert MovesAt(run, clock, n - 1);
      MoveKeepsReading(run[n - 1], run[n], clock[n - 1], t);
      if !Waiting(run[n - 1], t) {
        ReadingsArePast(run, clock, n - 1, t);
      }
    }
  }

  /** What has still to be read is not earlier than the clock. */
  lemma {:induction false} ReadingsToCome<B(!new)>(run: seq<Store<B>>, clock: seq<Time>, n: nat, m: nat, t: AppenderId)
    requires ClockedRun(run, clock) && n <= m < |run| && Waiting(run[n], t) && HasRead(run[m], t)
    ensures clock[n] <= run[m].appenders[t].recordedAt
    decreases m
  {
    if n < m {
      assert MovesAt(run, clock, m - 1);
      MoveKeepsReading(run[m - 1], run[m], clock[m - 1], t);
      if !Waiting(run[m - 1], t) {
        ReadingsToCome(run, clock, n, m - 1, t);
      }
    }
  }

  /** An appender keeps its request and its reading, and a finished one stays as it is. */
  lemma {:induction false} ReadingStays<B(!new)>(run: seq<Store<B>>, clock: seq<Time>, n: nat, m: nat, t: AppenderId)
    requires ClockedRun(run, clock) && n <= m < |run| && t in run[n].appenders && !Waiting(run[n], t)
    ensures t in run[m].appenders && !Waiting(run[m], t)
    ensures run[m].appenders[t].request == run[n].appenders[t].request
    ensures run[m].appenders[t].recordedAt == run[n].appenders[t].recordedAt
    ensures !InFlight(run[n].appenders[t]) ==> run[m].appenders[t] == run[n].appenders[t]
    decreases m
  {
    if n < m {
      ReadingStays(run, clock, n, m - 1, t);
      assert MovesAt(run, clock, m - 1);
      MoveKeepsReading(run[m - 1], run[m], clock[m - 1], t);
    }
  }

  lemma {:induction false} OnlyGrows<B(!new)>(run: seq<Store<B>>, clock: seq<Time>, n: nat, m: nat)
    requires ClockedRun(run, clock) && n <= m < |run|
    ensures run[n].rows <= run[m].rows && run[n].writers <= run[m].writers
    decreases m
  {
    if n < m {
      OnlyGrows(run, clock, n, m - 1);
      assert MovesAt(run, clock, m - 1);
      MoveKeepsReading(run[m - 1], run[m], clock[m - 1], 0);
    }
  }

  /** At moment `n`, appender `u` inserts its row. */
  ghost predicate InsertsAt<B>(run: seq<Store<B>>, n: int, u: AppenderId)
    requires 0 <= n < |run| - 1
  {
    && u in run[n].appenders && Inserted(run[n].rows, run[n].appenders[u]).Some?
    && run[n + 1].rows == run[n].rows + [Inserted(run[n].rows, run[n].appenders[u]).value]
    && run[n + 1].writers == run[n].writers + [u]
  }

  /** When a row was inserted. */
  lemma {:induction false} InsertedAt<B(!new)>(run: seq<Store<B>>, clock: seq<Time>, j: nat, a: nat) returns (n: nat)
    requires ClockedRun(run, clock) && j < |run| && a < |run[j].rows| && |run[j].writers| == |run[j].rows|
    ensures n < j && |run[n].rows| == a && |run[n].writers| == a && InsertsAt(run, n, run[j].writers[a])
  {
    assert j > 0;
    var m := j - 1;
    assert MovesAt(run, clock, m);
    ClockedIsRun(run, clock, m);
    if a < |run[m].rows| {
      n := InsertedAt(run, clock, m, a);
      OnlyGrows(run, clock, m, j);
    } else {
      n := m;
      if u :| Steps(run[m], run[j], u, clock[m]) {
        assert Inserted(run[m].rows, run[m].appenders[u]).Some?;
        assert InsertsAt(run, m, u);
      }
    }
  }

  /** What a stored row says of its writer. */
  lemma WriterOf<B(!new)>(run: seq<Store<B>>, clock: seq<Time>, j: nat, a: nat)
    requires ClockedRun(run, clock) && j < |run| && a < |run[j].rows|
    ensures |run[j].writers| == |run[j].rows| && HasRead(run[j], run[j].writers[a])
    ensures !InFlight(run[j].appenders[run[j].writers[a]])
    ensures run[j].rows[a].recordedAt == run[j].appenders[run[j].writers[a]].recordedAt
    ensures run[j].rows[a].id == run[j].appenders[run[j].writers[a]].request.id
  {
    ClockedIsRun(run, clock, j);
    var s, t := run[j], run[j].writers[a];
    assert PcInv(s.rows, s.writers, t, s.appenders[t]);
  }

  /** The moment at which an appender read the clock. */
  lemma {:induction false} ReadAt<B(!new)>(run: seq<Store<B>>, clock: seq<Time>, n: nat, t: AppenderId) returns (i: nat)
    requires ClockedRun(run, clock) && n < |run| && HasRead(run[n], t)
    ensures i < n && Waiting(run[i], t) && clock[i] == run[n].appenders[t].recordedAt
  {
    assert n > 0;
    assert MovesAt(run, clock, n - 1);
    MoveKeepsReading(run[n - 1], run[n], clock[n - 1], t);
    if Waiting(run[n - 1], t) {
      i := n - 1;
    } else {
      i := ReadAt(run, clock, n - 1, t);
    }
  }

  /**
   In every run each stored event carries its writer's request: the stated time if there is one, and as its
   recorded time what the clock said at a moment before it was inserted.
   */
  lemma StoredCarriesRequest<B(!new)>(run: seq<Store<B>>, clock: seq<Time>, j: nat, k: nat)
    returns (t: AppenderId, i: nat)
    requires ClockedRun(run, clock) && j < |run| && k < |run[j].rows|
    ensures t in run[j].appenders && i < j && Waiting(run[i], t)
    ensures CarriesRequest(run[j].appenders[t].request, clock[i], run[j].rows[k])
  {
    WriterOf(run, clock, j, k);
    t := run[j].writers[k];
    i := ReadAt(run, clock, j, t);
    ClockedIsRun(run, clock, j);
    ReturnedEvent(run, j, t);
  }

  /** `t` wants to append to the same aggregate as `u`, has an earlier clock reading, and is not done. */
  predicate Lags<B>(s: Store<B>, u: AppenderId, t: AppenderId) {
    && u in s.appenders && t in s.appenders && InFlight(s.appenders[t])
    && s.appenders[t].request.id == s.appenders[u].request.id
    && s.appenders[t].recordedAt < s.appenders[u].recordedAt
  }

  /** An appender that lags behind an insert never inserts itself, up to moment `j`. */
  ghost predicate LaggardsGiveUp<B>(run: seq<Store<B>>, j: nat)
    requires j < |run|
  {
    forall n, u, t {:trigger InsertsAt(run, n, u), Lags(run[n], u, t)} ::
      0 <= n < j && InsertsAt(run, n, u) && Lags(run[n], u, t) ==> t !in run[j].writers
  }

  /** Of two rows of one aggregate in the wrong order of time, the second's writer lagged behind the first's. */
  lemma WrongOrderLags<B(!new)>(run: seq<Store<B>>, clock: seq<Time>, j: nat, a: nat, b: nat) returns (n: nat)
    requires ClockedRun(run, clock) && j < |run| && a < b < |run[j].rows|
    requires run[j].rows[a].id == run[j].rows[b].id && run[j].rows[b].recordedAt < run[j].rows[a].recordedAt
    ensures |run[j].writers| == |run[j].rows| && n < j && InsertsAt(run, n, run[j].writers[a])
    ensures Lags(run[n], run[j].writers[a], run[j].writers[b])
  {
    WriterOf(run, clock, j, a);
    WriterOf(run, clock, j, b);
    var u, t := run[j].writers[a], run[j].writers[b];
    n := InsertedAt(run, clock, j, a);
    var m := InsertedAt(run, clock, j, b);
    if m <= n {
      OnlyGrows(run, clock, m, n);
    }
    assert HasRead(run[n], u);
    ReadingsArePast(run, clock, n, u);
    ReadingStays(run, clock, n, j, u);
    if Waiting(run[n], t) {
      ReadingsToCome(run, clock, n, j, t);
    } else {
      ReadingStays(run, clock, n, j, t);
      ReadingStays(run, clock, n, m, t);
    }
  }

  /** Conversely, a laggard that inserts after all leaves the times in the wrong order. */
  lemma LaggardBreaksOrder<B(!new)>(run: seq<Store<B>>, clock: seq<Time>, j: nat, n: nat, u: AppenderId, t: AppenderId)
    requires ClockedRun(run, clock) && n < j < |run| && InsertsAt(run, n, u) && Lags(run[n], u, t)
    requires t in run[j].writers
    ensures !RecordedInOrder(run[j].rows)
  {
    var a := |run[n].rows|;
    var b :| 0 <= b < |run[j].writers| && run[j].writers[b] == t;
    ClockedIsRun(run, clock, n);
    ClockedIsRun(run, clock, j);
    OnlyGrows(run, clock, n + 1, j);
    OnlyGrows(run, clock, n, j);
    assert run[j].writers[a] == u;
    WriterOf(run, clock, j, a);
    WriterOf(run, clock, j, b);
    ReadingStays(run, clock, n, j, u);
    ReadingStays(run, clock, n, j, t);
    if b < a {
      WriterOf(run, clock, n, b);
    }
    assert a < b && !InTime(run[j].rows, a, b);
  }

  /**
   Exactly which runs keep recorded times in order along every aggregate, under a clock that does not
   run backwards: those in which an appender that read the clock before a rival of its aggregate, and
   had not inserted when the rival did, never inserts. This is the hypothesis of every rebuild theorem.
   */
  lemma RecordedInOrderIff<B(!new)>(run: seq<Store<B>>, clock: seq<Time>, j: nat)
    requires ClockedRun(run, clock) && j < |run|
    ensures RecordedInOrder(run[j].rows) <==> LaggardsGiveUp(run, j)
  {
    var rows := run[j].rows;
    if RecordedInOrder(rows) {
      forall n, u, t | 0 <= n < j && InsertsAt(run, n, u) && Lags(run[n], u, t) ensures t !in run[j].writers {
        if t in run[j].writers {
          LaggardBreaksOrder(run, clock, j, n, u, t);
        }
      }
    }
    if LaggardsGiveUp(run, j) {
      ClockedIsRun(run, clock, j);
      forall a, b | 0 <= a < b < |rows| ensures InTime(rows, a, b) {
        if rows[a].id == rows[b].id {
          ContiguousRises(rows, a, b);
          if rows[b].recordedAt < rows[a].recordedAt {
            var n := WrongOrderLags(run, clock, j, a, b);
          }
        }
      }
    }
  }

  /** `t` has read the clock for an event of the same aggregate as `u`, and is not done. */
  predicate Overlaps<B>(s: Store<B>, u: AppenderId, t: AppenderId) {
    && t != u && u in s.appenders && t in s.appenders && InFlight(s.appenders[t])
    && s.appenders[t].request.id == s.appenders[u].request.id
  }

  /**
   In particular, times are in order if nobody is between reading the clock and inserting for an aggregate
   while somebody else inserts for it, whatever the clock says.
   */
  lemma NoOverlapKeepsOrder<B(!new)>(run: seq<Store<B>>, clock: seq<Time>, j: nat)
    requires ClockedRun(run, clock) && j < |run|
    requires forall n, u, t {:trigger InsertsAt(run, n, u), Overlaps(run[n], u, t)} ::
      0 <= n < j && InsertsAt(run, n, u) ==> !Overlaps(run[n], u, t)
    ensures RecordedInOrder(run[j].rows)
  {
    forall n, u, t | 0 <= n < j && InsertsAt(run, n, u) ensures !Lags(run[n], u, t) {
      assert !Overlaps(run[n], u, t);
    }
    RecordedInOrderIff(run, clock, j);
  }

  /******* The race *******/

  /** An appender without a key that has just read the clock, after an undisturbed attempt. */
  lemma UndisturbedInsert<B(!new)>(s: Store<B>, t: AppenderId, now: Time) returns (run: seq<Store<B>>)
    requires Inv(s) && t in s.appenders && s.appenders[t].pc == CheckKey(0) && s.appenders[t].request.key.None?
    ensures |run| == 4 && run[0] == s
    ensures forall i :: 0 <= i < 3 ==> Steps(run[i], run[i + 1], t, now)
    ensures var e := Candidate(s.appenders[t], NextSequence(s.rows, s.appenders[t].request.id));
      run[3].rows == s.rows + [e] && run[3].appenders == s.appenders[t := s.appenders[t].(pc := Returned(e, true))]
  {
    var a := Step(s, t, now);
    var b := Step(a, t, now);
    SlotTakenIff(s.rows, s.appenders[t].request.id, NextSequence(s.rows, s.appenders[t].request.id));
    var c := Step(b, t, now);
    run := [s, a, b, c];
  }

  /** Two appenders of one aggregate have both read the clock, the first one earlier. */
  lemma BothRead<B(!new)>(first: Request<B>, second: Request<B>, early: Time, late: Time)
    returns (run: seq<Store<B>>, clock: seq<Time>)
    requires first.key.None? && second.key.None? && early < late
    ensures |run| == |clock| == 5 && run[0] == Empty() && clock == [early, early, early, late, late]
    ensures forall i :: 0 <= i < 4 ==> NextAt(run[i], run[i + 1], clock[i])
    ensures run[4] == Store([], [], map[0 := Appender(first, early, CheckKey(0), []),
        1 := Appender(second, late, CheckKey(0), [])])
  {
    var none: Store<B> := Empty();
    var a := Arrive(none, 0, first);
    var b := Arrive(a, 1, second);
    var c := Step(b, 0, early);
    var d := Step(c, 1, late);
    assert Arrives(none, a, 0, first) && Arrives(a, b, 1, second) && Steps(b, c, 0, early) && Steps(c, d, 1, late);
    run, clock := [none, a, b, c, d], [early, early, early, late, late];
    assert d.appenders == map[0 := Appender(first, early, CheckKey(0), []),
        1 := Appender(second, late, CheckKey(0), [])];
  }

  /**
   The race between reading the clock and choosing the slot, with rising clock readings: of two
   appenders of one aggregate, the one that read the clock first inserts second, and its event carries
   the larger number and the earlier time.
   */
  lemma RaceBreaksOrder<B(!new)>(first: Request<B>, second: Request<B>, early: Time, late: Time)
    returns (run: seq<Store<B>>, clock: seq<Time>)
    requires first.key.None? && second.key.None? && first.id == second.id && early < late
    ensures ClockedRun(run, clock) && clock[0] == early && clock[|clock| - 1] == late
    ensures var rows := run[|run| - 1].rows;
      && |rows| == 2 && rows[0].sequence == 1 && rows[0].recordedAt == late && rows[0].body == second.body
      && rows[1].sequence == 2 && rows[1].recordedAt == early && rows[1].body == first.body
      && rows[0].id == rows[1].id == first.id && !RecordedInOrder(rows)
  {
    var start, one, two := RacePieces(first, second, early, late);
    RaceIsClocked(start, one, two, early, late);
    run := start + one[1..] + two[1..];
    clock := [early, early, early, late, late] + [late, late, late, late, late, late];
    assert run[|run| - 1] == two[3];
  }

  lemma RacePieces<B(!new)>(first: Request<B>, second: Request<B>, early: Time, late: Time)
    returns (start: seq<Store<B>>, one: seq<Store<B>>, two: seq<Store<B>>)
    requires first.key.None? && second.key.None? && first.id == second.id && early < late
    ensures |start| == 5 && |one| == 4 && |two| == 4 && one[0] == start[4] && two[0] == one[3] && start[0] == Empty()
    ensures forall k :: 0 <= k < 4 ==> NextAt(start[k], start[k + 1], [early, early, early, late, late][k])
    ensures forall k :: 0 <= k < 3 ==> Steps(one[k], one[k + 1], 1, late) && Steps(two[k], two[k + 1], 0, late)
    ensures var rows := two[3].rows;
      && |rows| == 2 && rows[0].sequence == 1 && rows[0].recordedAt == late && rows[0].body == second.body
      && rows[1].sequence == 2 && rows[1].recordedAt == early && rows[1].body == first.body
      && rows[0].id == rows[1].id == first.id && !RecordedInOrder(rows)
  {
    var times;
    start, times := BothRead(first, second, early, late);
    BothReadInv(start, times);
    one := UndisturbedInsert(start[4], 1, late);
    InsertKeepsInv(one, 1, late);
    two := UndisturbedInsert(one[3], 0, late);
    RaceRows(start[4], one, two);
  }

  lemma RaceRows<B(!new)>(s: Store<B>, one: seq<Store<B>>, two: seq<Store<B>>)
    requires s.rows == [] && 0 in s.appenders && 1 in s.appenders && |one| == 4 && |two| == 4
    requires s.appenders[0].request.id == s.appenders[1].request.id
    requires s.appenders[0].recordedAt < s.appenders[1].recordedAt
    requires one[3].rows == [Candidate(s.appenders[1], NextSequence(s.rows, s.appenders[1].request.id))]
    requires two[3].rows ==
      one[3].rows + [Candidate(s.appenders[0], NextSequence(one[3].rows, s.appenders[0].request.id))]
    ensures two[3].rows[0].sequence == 1 && two[3].rows[1].sequence == 2 && !RecordedInOrder(two[3].rows)
  {
    var rows := two[3].rows;
    assert one[3].rows[..0] == [];
    assert !InTime(rows, 0, 1);
  }

  lemma BothReadInv<B(!new)>(run: seq<Store<B>>, clock: seq<Time>)
    requires |run| == |clock| == 5 && run[0] == Empty()
    requires forall i, j :: 0 <= i < j < |clock| ==> clock[i] <= clock[j]
    requires forall i :: 0 <= i < 4 ==> NextAt(run[i], run[i + 1], clock[i])
    ensures Inv(run[4])
  {
    forall i | 0 <= i < |run| - 1 ensures MovesAt(run, clock, i) {
    }
    ClockedIsRun(run, clock, 4);
  }

  lemma InsertKeepsInv<B(!new)>(run: seq<Store<B>>, t: AppenderId, now: Time)
    requires |run| == 4 && Inv(run[0]) && forall i :: 0 <= i < 3 ==> Steps(run[i], run[i + 1], t, now)
    ensures Inv(run[3])
  {
    assert Steps(run[0], run[1], t, now) && Steps(run[1], run[2], t, now) && Steps(run[2], run[3], t, now);
    NextKeepsInv(run[0], run[1]);
    NextKeepsInv(run[1], run[2]);
    NextKeepsInv(run[2], run[3]);
  }

  lemma RaceIsClocked<B(!new)>(start: seq<Store<B>>, one: seq<Store<B>>, two: seq<Store<B>>, early: Time, late: Time)
    requires early < late && |start| == 5 && |one| == 4 && |two| == 4 && one[0] == start[4] && two[0] == one[3]
    requires start[0] == Empty()
    requires forall k :: 0 <= k < 4 ==> NextAt(start[k], start[k + 1], [early, early, early, late, late][k])
    requires forall k :: 0 <= k < 3 ==> Steps(one[k], one[k + 1], 1, late) && Steps(two[k], two[k + 1], 0, late)
    ensures ClockedRun(start + one[1..] + two[1..],
        [early, early, early, late, late] + [late, late, late, late, late, late])
  {
    var run, clock := start + one[1..] + two[1..], [early, early, early, late, late] + [late, late, late, late, late,
        late];
    forall i | 0 <= i < |run| - 1 ensures MovesAt(run, clock, i) {
      if i < 4 {
        assert run[i] == start[i] && run[i + 1] == start[i + 1];
        assert NextAt(start[i], start[i + 1], [early, early, early, late, late][i]);
      } else if i < 7 {
        assert run[i] == one[i - 4] && run[i + 1] == one[i - 3];
        assert Steps(one[i - 4], one[i - 4 + 1], 1, late);
      } else {
        assert run[i] == two[i - 7] && run[i + 1] == two[i - 6];
        assert Steps(two[i - 7], two[i - 7 + 1], 0, late);
      }
    }
  }
}
