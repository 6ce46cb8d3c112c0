/**
 * The host's ScheduleDay: the breakpoints of one day, kept in time order.
 * OpenStudio reads a breakpoint (t, v) as "value v until time t": v holds on
 * the interval that ends at t. Times are seconds since midnight.
 *
 * `AddValue` is modelled as insert-or-overwrite: a breakpoint at a new time is
 * inserted in time order, a breakpoint at an existing time replaces that
 * time's value. This is an assumption about the host, whose code is not part
 * of this model.
 */
module DaySchedule {

  datatype Breakpoint = Breakpoint(time: int, value: real)

  /** Times strictly increase along the day. */
  ghost predicate Sorted(s: seq<Breakpoint>) {
    forall i, j :: 0 <= i < j < |s| ==> s[i].time < s[j].time
  }

  /** The time vector of a day, as `ScheduleDay.times` returns it. */
  function Times(s: seq<Breakpoint>): (r: seq<int>)
    ensures |r| == |s| && forall i :: 0 <= i < |s| ==> r[i] == s[i].time
  {
    if s == [] then [] else [s[0].time] + Times(s[1..])
  }

  /** The value vector of a day, as `ScheduleDay.values` returns it. */
  function Values(s: seq<Breakpoint>): (r: seq<real>)
    ensures |r| == |s| && forall i :: 0 <= i < |s| ==> r[i] == s[i].value
  {
    if s == [] then [] else [s[0].value] + Values(s[1..])
  }

  /** The set of times at which a day has a breakpoint. */
  ghost function TimeSet(s: seq<Breakpoint>): set<int> {
    set b | b in s :: b.time
  }

  /** `addValue(t, v)` on a day held as a time-ordered sequence. */
  function Insert(s: seq<Breakpoint>, t: int, v: real): (r: seq<Breakpoint>)
    requires Sorted(s)
    ensures Sorted(r)
    ensures r != [] && r[0].time == if s == [] || t < s[0].time then t else s[0].time
  {
    if s == [] then [Breakpoint(t, v)]
    else if t < s[0].time then [Breakpoint(t, v)] + s
    else if t == s[0].time then [Breakpoint(t, v)] + s[1..]
    else [s[0]] + Insert(s[1..], t, v)
  }

  /**
   * After `addValue(t, v)` the day holds (t, v) and every breakpoint it held
   * at another time, and nothing else.
   */
  lemma {:induction false} InsertMembers(s: seq<Breakpoint>, t: int, v: real)
    requires Sorted(s)
    ensures Breakpoint(t, v) in Insert(s, t, v)
    ensures forall b :: b in Insert(s, t, v) <==> b == Breakpoint(t, v) || (b in s && b.time != t)
  {
    if s != [] && t > s[0].time {
      InsertMembers(s[1..], t, v);
      forall b | b in s && b.time != t ensures b in Insert(s, t, v) {
        if b != s[0] { assert b in s[1..]; }
      }
    }
  }

  /** `addValue` at a time the day already has replaces that breakpoint's value in place. */
  lemma {:induction false} InsertOverwrites(s: seq<Breakpoint>, k: nat, v: real)
    requires Sorted(s) && k < |s|
    ensures Insert(s, s[k].time, v) == s[..k] + [Breakpoint(s[k].time, v)] + s[k + 1..]
    decreases k
  {
    if k > 0 {
      InsertOverwrites(s[1..], k - 1, v);
      assert s[1..][..k - 1] == s[1..k] && s[1..][k..] == s[k + 1..];
      assert s[..k] == [s[0]] + s[1..k];
    }
  }

  /** `addValue` at a time after every breakpoint of the day appends it. */
  lemma {:induction false} InsertAfterLast(s: seq<Breakpoint>, t: int, v: real)
    requires Sorted(s) && (s == [] || s[|s| - 1].time < t)
    ensures Insert(s, t, v) == s + [Breakpoint(t, v)]
    decreases |s|
  {
    if s != [] {
      var rest := s[1..];
      assert rest == [] || rest[|rest| - 1] == s[|s| - 1];
      assert s[0].time < t;
      InsertAfterLast(rest, t, v);
      assert Insert(s, t, v) == [s[0]] + (rest + [Breakpoint(t, v)]);
      assert s + [Breakpoint(t, v)] == [s[0]] + (rest + [Breakpoint(t, v)]);
    }
  }

  /** The day after a series of `addValue` calls, made in order. */
  function Apply(s: seq<Breakpoint>, writes: seq<Breakpoint>): (r: seq<Breakpoint>)
    requires Sorted(s)
    ensures Sorted(r)
    decreases |writes|
  {
    if writes == [] then s
    else
      var last := writes[|writes| - 1];
      Insert(Apply(s, writes[..|writes| - 1]), last.time, last.value)
  }

  /** One more write is one more insert-or-overwrite. */
  lemma ApplySnoc(s: seq<Breakpoint>, writes: seq<Breakpoint>, b: Breakpoint)
    requires Sorted(s)
    ensures Apply(s, writes + [b]) == Insert(Apply(s, writes), b.time, b.value)
  {
    assert (writes + [b])[..|writes|] == writes;
  }

  lemma ApplyPair(s: seq<Breakpoint>, writes: seq<Breakpoint>, a: Breakpoint, b: Breakpoint)
    requires Sorted(s)
    ensures Apply(s, writes + [a, b]) == Insert(Insert(Apply(s, writes), a.time, a.value), b.time, b.value)
  {
    ApplySnoc(s, writes, a);
    assert writes + [a, b] == (writes + [a]) + [b];
    ApplySnoc(s, writes + [a], b);
  }

  lemma ApplyTriple(s: seq<Breakpoint>, writes: seq<Breakpoint>, a: Breakpoint, b: Breakpoint, c: Breakpoint)
    requires Sorted(s)
    ensures Apply(s, writes + [a, b, c])
         == Insert(Insert(Insert(Apply(s, writes), a.time, a.value), b.time, b.value), c.time, c.value)
  {
    ApplyPair(s, writes, a, b);
    assert writes + [a, b, c] == (writes + [a, b]) + [c];
    ApplySnoc(s, writes + [a, b], c);
  }

  /** Writing and then writing more is the same as writing everything in order. */
  lemma {:induction false} ApplyAppend(s: seq<Breakpoint>, w1: seq<Breakpoint>, w2: seq<Breakpoint>)
    requires Sorted(s)
    ensures Apply(s, w1 + w2) == Apply(Apply(s, w1), w2)
    decreases |w2|
  {
    if w2 == [] {
      assert w1 + w2 == w1;
    } else {
      var n := |w2| - 1;
      var all := w1 + w2;
      assert all[..|all| - 1] == w1 + w2[..n];
      assert all[|all| - 1] == w2[n];
      ApplyAppend(s, w1, w2[..n]);
      calc {
        Apply(s, all);
        Insert(Apply(s, w1 + w2[..n]), w2[n].time, w2[n].value);
        Insert(Apply(Apply(s, w1), w2[..n]), w2[n].time, w2[n].value);
        Apply(Apply(s, w1), w2);
      }
    }
  }

  /**
   * The times present after a series of writes are the times present before
   * plus the times written: insert-or-overwrite never removes a time.
   */
  lemma {:induction false} ApplyTimeSet(s: seq<Breakpoint>, writes: seq<Breakpoint>)
    requires Sorted(s)
    ensures TimeSet(Apply(s, writes)) == TimeSet(s) + TimeSet(writes)
    decreases |writes|
  {
    if writes != [] {
      var n := |writes| - 1;
      var last := writes[n];
      ApplyTimeSet(s, writes[..n]);
      InsertTimeSet(Apply(s, writes[..n]), last.time, last.value);
      TimeSetSnoc(writes, n);
    }
  }

  /** The times of a series of writes: those of all but the last, and the last one's. */
  lemma TimeSetSnoc(writes: seq<Breakpoint>, n: nat)
    requires n + 1 == |writes|
    ensures TimeSet(writes) == TimeSet(writes[..n]) + {writes[n].time}
  {
    assert writes == writes[..n] + [writes[n]];
    TimeSetConcat(writes[..n], [writes[n]]);
    assert TimeSet([writes[n]]) == {writes[n].time};
  }

  /** `addValue(t, v)` adds the time `t` and keeps every other time. */
  lemma InsertTimeSet(s: seq<Breakpoint>, t: int, v: real)
    requires Sorted(s)
    ensures TimeSet(Insert(s, t, v)) == TimeSet(s) + {t}
  {
    var after := Insert(s, t, v);
    InsertMembers(s, t, v);
    forall x | x in TimeSet(s) ensures x in TimeSet(after) {
      var b :| b in s && b.time == x;
      if b.time != t { assert b in after; } else { assert Breakpoint(t, v) in after; }
    }
    forall x | x in TimeSet(after) ensures x in TimeSet(s) + {t} {
      var b :| b in after && b.time == x;
    }
  }

  /** A day after a series of writes holds only breakpoints it held before or that were written. */
  lemma {:induction false} ApplyMembers(s: seq<Breakpoint>, writes: seq<Breakpoint>)
    requires Sorted(s)
    ensures forall b :: b in Apply(s, writes) ==> b in s || b in writes
    decreases |writes|
  {
    if writes != [] {
      var n := |writes| - 1;
      var before := Apply(s, writes[..n]);
      ApplyMembers(s, writes[..n]);
      InsertMembers(before, writes[n].time, writes[n].value);
      assert Apply(s, writes) == Insert(before, writes[n].time, writes[n].value);
      forall b | b in Apply(s, writes) ensures b in s || b in writes {
        if b != writes[n] {
          assert b in before;
          if b !in s { assert b in writes[..n]; }
        }
      }
    }
  }

  /** A breakpoint at a time that no write touches is still there after the writes. */
  lemma {:induction false} ApplyKeeps(s: seq<Breakpoint>, writes: seq<Breakpoint>, b: Breakpoint)
    requires Sorted(s) && b in s
    requires forall c :: c in writes ==> c.time != b.time
    ensures b in Apply(s, writes)
    decreases |writes|
  {
    if writes != [] {
      var n := |writes| - 1;
      assert writes[n] in writes;
      forall c | c in writes[..n] ensures c.time != b.time {
        assert c in writes;
      }
      ApplyKeeps(s, writes[..n], b);
      InsertMembers(Apply(s, writes[..n]), writes[n].time, writes[n].value);
    }
  }

  /** Writes made at pairwise different times all end up in the day. */
  lemma {:induction false} ApplyDistinct(s: seq<Breakpoint>, writes: seq<Breakpoint>)
    requires Sorted(s)
    requires forall j, k :: 0 <= j < k < |writes| ==> writes[j].time != writes[k].time
    ensures forall c :: c in writes ==> c in Apply(s, writes)
    decreases |writes|
  {
    if writes != [] {
      var n := |writes| - 1;
      var prefix := writes[..n];
      forall j, k | 0 <= j < k < |prefix| ensures prefix[j].time != prefix[k].time {
        assert prefix[j] == writes[j] && prefix[k] == writes[k];
      }
      ApplyDistinct(s, prefix);
      var before := Apply(s, prefix);
      assert Apply(s, writes) == Insert(before, writes[n].time, writes[n].value);
      InsertMembers(before, writes[n].time, writes[n].value);
      forall c | c in writes ensures c in Apply(s, writes) {
        var k :| 0 <= k < |writes| && writes[k] == c;
        if k < n {
          assert c == prefix[k] && c.time != writes[n].time;
        }
      }
    }
  }

  /** A day holds one value per time. */
  lemma SortedOneValue(s: seq<Breakpoint>, b: Breakpoint, c: Breakpoint)
    requires Sorted(s) && b in s && c in s && b.time == c.time
    ensures b == c
  {
    var j :| 0 <= j < |s| && s[j] == b;
    var k :| 0 <= k < |s| && s[k] == c;
  }

  lemma TimeSetConcat(a: seq<Breakpoint>, b: seq<Breakpoint>)
    ensures TimeSet(a + b) == TimeSet(a) + TimeSet(b)
  {
    forall x | x in TimeSet(a + b) ensures x in TimeSet(a) + TimeSet(b) {
      var p :| p in a + b && p.time == x;
      if p in a { assert x in TimeSet(a); } else { assert p in b; }
    }
    forall x | x in TimeSet(a) + TimeSet(b) ensures x in TimeSet(a + b) {
      if x in TimeSet(a) { var p :| p in a && p.time == x; assert p in a + b; }
      else { var p :| p in b && p.time == x; assert p in a + b; }
    }
  }

  /**
   * The host object: a day whose breakpoints the measure clears and rewrites
   * in place.
   */
  class ScheduleDay {
    var points: seq<Breakpoint>

    ghost predicate Valid()
      reads this
    {
      Sorted(points)
    }

    /** A day schedule holding a copy of the given breakpoints (a clone's day). */
    constructor (points: seq<Breakpoint>)
      ensures this.points == points
    {
      this.points := points;
    }

    /** `clearValues`: the day loses every breakpoint. */
    method ClearValues()
      modifies this
      ensures Valid() && points == []
    {
      points := [];
    }

    /** `addValue(time, value)`: insert-or-overwrite at `time`. */
    method AddValue(time: int, value: real)
      requires Valid()
      modifies this
      ensures Valid()
      ensures points == Insert(old(points), time, value)
    {
      points := Insert(points, time, value);
    }
  }
}
