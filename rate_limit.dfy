/**
 * Sliding-window admission control of the conversion handler.
 *
 * One list of visits, oldest first, is shared by every request. A call at time
 * `now` from address `ip` walks the list from the front: a visit older than
 * `now - Window` is deleted, a live visit of the same address marks the call as
 * denied and the walk goes on, and the first live visit of another address ends
 * the walk. An admitted call appends its own visit.
 *
 * The walk deletes from the list it is iterating over. The iterator's position
 * still advances after a deletion, so the visit that slides into the freed slot
 * is passed over: it is neither deleted nor compared with the caller.
 */
module RateLimit {

  /** Length of the window, in seconds. */
  const Window: int := 20

  /** One admitted request: when it arrived and from which address. */
  datatype Visit = Visit(time: int, ip: string)

  /** What one walk leaves behind: the list and whether the caller was seen in the window. */
  datatype Scan = Scan(kept: seq<Visit>, denied: bool)

  /** The list after a call and the call's verdict. */
  datatype Decision = Decision(visits: seq<Visit>, admitted: bool)

  predicate Expired(v: Visit, threshold: int) {
    v.time < threshold
  }

  /**
   * The walk as the loop performs it: `i` is the iterator's position in the
   * list `s` as modified so far. A deletion at `i` is followed by a move to
   * `i + 1` in the shortened list.
   */
  function Sweep(s: seq<Visit>, i: nat, threshold: int, ip: string): (r: Scan)
    ensures |r.kept| <= |s|
    ensures r.denied ==> exists w :: w in s && !Expired(w, threshold) && w.ip == ip
    decreases |s| + 1 - i
  {
    if i >= |s| then Scan(s, false)
    else if Expired(s[i], threshold) then Sweep(s[..i] + s[i + 1..], i + 1, threshold, ip)
    else if s[i].ip == ip then
      var rest := Sweep(s, i + 1, threshold, ip);
      Scan(rest.kept, true)
    else Scan(s, false)
  }

  /**
   * The same walk described on the part of the original list not yet reached:
   * an expired head is dropped and the visit after it is kept unexamined; a live
   * visit of the caller is kept and denies the call; a live visit of another
   * address keeps everything from there on.
   */
  function Prune(s: seq<Visit>, threshold: int, ip: string): (r: Scan)
    ensures |r.kept| <= |s|
    ensures r.denied ==> exists w :: w in s && !Expired(w, threshold) && w.ip == ip
  {
    if s == [] then Scan([], false)
    else if Expired(s[0], threshold) then
      if |s| == 1 then Scan([], false)
      else
        var rest := Prune(s[2..], threshold, ip);
        Scan([s[1]] + rest.kept, rest.denied)
    else if s[0].ip == ip then
      var rest := Prune(s[1..], threshold, ip);
      Scan([s[0]] + rest.kept, true)
    else Scan(s, false)
  }

  /**
   * The effect of one call at time `now` from `ip` on the list `visits`. A
   * denial always has a live visit of the caller behind it; an admission ends
   * the list with the caller's new visit and grows it by that visit at most.
   */
  function Admission(visits: seq<Visit>, now: int, ip: string): (d: Decision)
    ensures !d.admitted ==> exists w :: w in visits && !Expired(w, now - Window) && w.ip == ip
    ensures d.admitted ==> |d.visits| >= 1 && d.visits[|d.visits| - 1] == Visit(now, ip)
    ensures |d.visits| <= |visits| + 1
  {
    var scan := Sweep(visits, 0, now - Window, ip);
    if scan.denied then Decision(scan.kept, false)
    else Decision(scan.kept + [Visit(now, ip)], true)
  }

  /** The loop's walk from position `i` equals the visits before `i` followed by the pruned rest. */
  ghost predicate SweepsAsPrune(s: seq<Visit>, i: nat, threshold: int, ip: string)
    requires i <= |s|
  {
    Sweep(s, i, threshold, ip)
      == Scan(s[..i] + Prune(s[i..], threshold, ip).kept, Prune(s[i..], threshold, ip).denied)
  }

  /** How the list looks around position `i` once the visit there is deleted. */
  lemma DeletionSlices(s: seq<Visit>, i: nat)
    requires i + 1 < |s|
    ensures var t := s[..i] + s[i + 1..];
      t[i + 1..] == s[i + 2..] && t[..i + 1] == s[..i] + [s[i + 1]]
    ensures s[i..][2..] == s[i + 2..] && s[i..][0] == s[i] && s[i..][1] == s[i + 1]
  {
  }

  lemma SweepsAsPruneAfterDeletion(s: seq<Visit>, i: nat, threshold: int, ip: string)
    requires i + 1 < |s| && Expired(s[i], threshold)
    requires SweepsAsPrune(s[..i] + s[i + 1..], i + 1, threshold, ip)
    ensures SweepsAsPrune(s, i, threshold, ip)
  {
    var t := s[..i] + s[i + 1..];
    assert Sweep(s, i, threshold, ip) == Sweep(t, i + 1, threshold, ip);
    DeletionSlices(s, i);
    PruneAfterExpired(s[i..], threshold, ip);
    var inner := Prune(s[i + 2..], threshold, ip);
    assert Prune(s[i..], threshold, ip) == Scan([s[i + 1]] + inner.kept, inner.denied);
    assert (s[..i] + [s[i + 1]]) + inner.kept == s[..i] + ([s[i + 1]] + inner.kept);
  }

  lemma SweepsAsPruneAfterCaller(s: seq<Visit>, i: nat, threshold: int, ip: string)
    requires i < |s| && !Expired(s[i], threshold) && s[i].ip == ip
    requires SweepsAsPrune(s, i + 1, threshold, ip)
    ensures SweepsAsPrune(s, i, threshold, ip)
  {
  }

  /** Past the end of the list the walk keeps everything and denies nothing. */
  lemma SweepsAsPruneAtEnd(s: seq<Visit>, threshold: int, ip: string)
    ensures SweepsAsPrune(s, |s|, threshold, ip)
  {
  }

  /** An expired last visit is deleted and the walk ends. */
  lemma SweepsAsPruneAtLastExpired(s: seq<Visit>, i: nat, threshold: int, ip: string)
    requires i + 1 == |s| && Expired(s[i], threshold)
    ensures SweepsAsPrune(s, i, threshold, ip)
  {
  }

  /** A live visit of another address ends the walk with the list as it stands. */
  lemma SweepsAsPruneAtForeign(s: seq<Visit>, i: nat, threshold: int, ip: string)
    requires i < |s| && !Expired(s[i], threshold) && s[i].ip != ip
    ensures SweepsAsPrune(s, i, threshold, ip)
  {
  }

  /** The loop's walk from position `i` leaves the visits before `i` alone and prunes the rest. */
  lemma {:induction false} SweepIsPrune(s: seq<Visit>, i: nat, threshold: int, ip: string)
    requires i <= |s|
    ensures Sweep(s, i, threshold, ip)
         == Scan(s[..i] + Prune(s[i..], threshold, ip).kept, Prune(s[i..], threshold, ip).denied)
    decreases |s| - i
  {
    if i == |s| {
      SweepsAsPruneAtEnd(s, threshold, ip);
    } else if Expired(s[i], threshold) {
      if i + 1 == |s| {
        SweepsAsPruneAtLastExpired(s, i, threshold, ip);
      } else {
        SweepIsPrune(s[..i] + s[i + 1..], i + 1, threshold, ip);
        SweepsAsPruneAfterDeletion(s, i, threshold, ip);
      }
    } else if s[i].ip == ip {
      SweepIsPrune(s, i + 1, threshold, ip);
      SweepsAsPruneAfterCaller(s, i, threshold, ip);
    } else {
      SweepsAsPruneAtForeign(s, i, threshold, ip);
    }
    assert SweepsAsPrune(s, i, threshold, ip);
  }

  /** `kept` is `s` with some expired visits removed and the rest in their original order. */
  ghost predicate PrunedFrom(kept: seq<Visit>, s: seq<Visit>, threshold: int)
    decreases |s|
  {
    if s == [] then kept == []
    else
      (kept != [] && kept[0] == s[0] && PrunedFrom(kept[1..], s[1..], threshold))
      || (Expired(s[0], threshold) && PrunedFrom(kept, s[1..], threshold))
  }

  lemma {:induction false} PrunedFromItself(s: seq<Visit>, threshold: int)
    ensures PrunedFrom(s, s, threshold)
    decreases |s|
  {
    if s != [] {
      PrunedFromItself(s[1..], threshold);
    }
  }

  /** The walk deletes nothing but expired visits and never reorders the survivors. */
  lemma {:induction false} PruneDropsOnlyExpired(s: seq<Visit>, threshold: int, ip: string)
    ensures PrunedFrom(Prune(s, threshold, ip).kept, s, threshold)
    decreases |s|
  {
    if s == [] {
    } else if Expired(s[0], threshold) {
      if |s| >= 2 {
        var kept := Prune(s, threshold, ip).kept;
        PruneDropsOnlyExpired(s[2..], threshold, ip);
        assert kept[1..] == Prune(s[2..], threshold, ip).kept;
        assert s[1..][1..] == s[2..];
        assert PrunedFrom(kept, s[1..], threshold);
      }
    } else if s[0].ip == ip {
      PruneDropsOnlyExpired(s[1..], threshold, ip);
      assert Prune(s, threshold, ip).kept[1..] == Prune(s[1..], threshold, ip).kept;
    } else {
      PrunedFromItself(s, threshold);
    }
  }

  /** A visit that is not expired (in particular one exactly at the threshold) survives any such pruning. */
  lemma {:induction false} LiveVisitsSurvive(kept: seq<Visit>, s: seq<Visit>, threshold: int, j: nat)
    requires PrunedFrom(kept, s, threshold)
    requires j < |s| && !Expired(s[j], threshold)
    ensures s[j] in kept
    decreases |s|
  {
    if kept != [] && kept[0] == s[0] && PrunedFrom(kept[1..], s[1..], threshold) {
      if j > 0 {
        LiveVisitsSurvive(kept[1..], s[1..], threshold, j - 1);
        assert s[1..][j - 1] == s[j];
      }
    } else {
      assert j > 0;
      LiveVisitsSurvive(kept, s[1..], threshold, j - 1);
      assert s[1..][j - 1] == s[j];
    }
  }

  /** A walk from the front of the list is the pruning of the whole list. */
  lemma WalkFromStartIsPrune(s: seq<Visit>, threshold: int, ip: string)
    ensures Sweep(s, 0, threshold, ip) == Prune(s, threshold, ip)
  {
    SweepIsPrune(s, 0, threshold, ip);
    assert s[0..] == s && s[..0] == [];
  }

  /**
   * A denied call leaves a pruned copy of the old list and appends nothing; an
   * admitted call leaves a pruned copy followed by exactly its own visit.
   */
  lemma AdmissionShape(visits: seq<Visit>, now: int, ip: string)
    ensures var d := Admission(visits, now, ip);
      (!d.admitted ==> PrunedFrom(d.visits, visits, now - Window))
      && (d.admitted ==>
            |d.visits| >= 1 && d.visits[|d.visits| - 1] == Visit(now, ip)
            && PrunedFrom(d.visits[..|d.visits| - 1], visits, now - Window))
  {
    var threshold := now - Window;
    WalkFromStartIsPrune(visits, threshold, ip);
    PruneDropsOnlyExpired(visits, threshold, ip);
    var scan := Prune(visits, threshold, ip);
    assert (scan.kept + [Visit(now, ip)])[..|scan.kept|] == scan.kept;
  }

  /** Every visit at or after `now - Window` is still in the list after the call. */
  lemma LiveVisitsKept(visits: seq<Visit>, now: int, ip: string, j: nat)
    requires j < |visits| && visits[j].time >= now - Window
    ensures visits[j] in Admission(visits, now, ip).visits
  {
    AdmissionShape(visits, now, ip);
    var d := Admission(visits, now, ip);
    if d.admitted {
      LiveVisitsSurvive(d.visits[..|d.visits| - 1], visits, now - Window, j);
    } else {
      LiveVisitsSurvive(d.visits, visits, now - Window, j);
    }
  }

  /**
   * Position in `s` where the walk ends: the first live visit of another
   * address that it examines, or `|s|` when it runs off the end.
   */
  function StopIndex(s: seq<Visit>, threshold: int, ip: string): (n: nat)
    ensures n <= |s|
    ensures n < |s| ==> !Expired(s[n], threshold) && s[n].ip != ip
  {
    if s == [] then 0
    else if Expired(s[0], threshold) then
      if |s| == 1 then 1 else 2 + StopIndex(s[2..], threshold, ip)
    else if s[0].ip == ip then 1 + StopIndex(s[1..], threshold, ip)
    else 0
  }

  lemma PruneAfterExpired(s: seq<Visit>, threshold: int, ip: string)
    requires |s| >= 2 && Expired(s[0], threshold)
    ensures Prune(s, threshold, ip)
         == Scan([s[1]] + Prune(s[2..], threshold, ip).kept, Prune(s[2..], threshold, ip).denied)
  {
  }

  lemma PruneAfterCaller(s: seq<Visit>, threshold: int, ip: string)
    requires |s| >= 1 && !Expired(s[0], threshold) && s[0].ip == ip
    ensures Prune(s, threshold, ip) == Scan([s[0]] + Prune(s[1..], threshold, ip).kept, true)
  {
  }

  /** The outcome of the walk over `s` splits at position `n` into the walk over `s[..n]` and the untouched rest. */
  ghost predicate SplitsAt(s: seq<Visit>, n: nat, threshold: int, ip: string)
    requires n <= |s|
  {
    Prune(s, threshold, ip) == Scan(Prune(s[..n], threshold, ip).kept + s[n..], Prune(s[..n], threshold, ip).denied)
  }

  lemma SplitsAfterExpired(s: seq<Visit>, m: nat, threshold: int, ip: string)
    requires |s| >= 2 && Expired(s[0], threshold) && m <= |s| - 2
    requires SplitsAt(s[2..], m, threshold, ip)
    ensures SplitsAt(s, m + 2, threshold, ip)
  {
    var n, head, tail := m + 2, s[..m + 2], s[2..];
    assert head[2..] == tail[..m] && head[0] == s[0] && head[1] == s[1];
    assert tail[m..] == s[n..];
    PruneAfterExpired(s, threshold, ip);
    PruneAfterExpired(head, threshold, ip);
    var inner := Prune(tail[..m], threshold, ip);
    assert [s[1]] + (inner.kept + s[n..]) == ([s[1]] + inner.kept) + s[n..];
  }

  lemma SplitsAfterCaller(s: seq<Visit>, m: nat, threshold: int, ip: string)
    requires |s| >= 1 && !Expired(s[0], threshold) && s[0].ip == ip && m <= |s| - 1
    requires SplitsAt(s[1..], m, threshold, ip)
    ensures SplitsAt(s, m + 1, threshold, ip)
  {
    var n, head, tail := m + 1, s[..m + 1], s[1..];
    assert head[1..] == tail[..m] && head[0] == s[0];
    assert tail[m..] == s[n..];
    PruneAfterCaller(s, threshold, ip);
    PruneAfterCaller(head, threshold, ip);
    var inner := Prune(tail[..m], threshold, ip);
    assert [s[0]] + (inner.kept + s[n..]) == ([s[0]] + inner.kept) + s[n..];
  }

  /**
   * The visit where the walk stops and everything after it is neither examined
   * nor deleted: the outcome is that of the walk over the part before it, with
   * the rest appended untouched.
   */
  lemma {:induction false} WalkStopsAtForeignLiveVisit(s: seq<Visit>, threshold: int, ip: string)
    ensures var n := StopIndex(s, threshold, ip);
      Prune(s, threshold, ip) == Scan(Prune(s[..n], threshold, ip).kept + s[n..], Prune(s[..n], threshold, ip).denied)
    decreases |s|
  {
    var n := StopIndex(s, threshold, ip);
    if s == [] {
      assert SplitsAt(s, n, threshold, ip);
    } else if Expired(s[0], threshold) {
      if |s| == 1 {
        assert n == 1 && s[..n] == s && s[n..] == [];
      } else {
        var m := StopIndex(s[2..], threshold, ip);
        assert n == m + 2;
        WalkStopsAtForeignLiveVisit(s[2..], threshold, ip);
        assert SplitsAt(s[2..], m, threshold, ip);
        SplitsAfterExpired(s, m, threshold, ip);
      }
    } else if s[0].ip == ip {
      var m := StopIndex(s[1..], threshold, ip);
      assert n == m + 1;
      WalkStopsAtForeignLiveVisit(s[1..], threshold, ip);
      assert SplitsAt(s[1..], m, threshold, ip);
      SplitsAfterCaller(s, m, threshold, ip);
    } else {
      assert s[..n] == [];
      assert s[n..] == s;
    }
    assert SplitsAt(s, n, threshold, ip);
  }

  /** Starting empty: admitted at `t`, denied again within the window, admitted once `t` has expired. */
  lemma RepeatWithinWindowDenied(ip: string, t: int, t2: int, t3: int)
    requires t2 - Window <= t && t3 - Window > t
    ensures var d1 := Admission([], t, ip);
      var d2 := Admission(d1.visits, t2, ip);
      var d3 := Admission(d2.visits, t3, ip);
      d1.admitted && !d2.admitted && d3.admitted
      && d1.visits == [Visit(t, ip)] && d2.visits == [Visit(t, ip)] && d3.visits == [Visit(t3, ip)]
  {
    var v := [Visit(t, ip)];
    assert Sweep([], 0, t - Window, ip) == Scan([], false);
    assert Admission([], t, ip) == Decision(v, true);
    assert Sweep(v, 1, t2 - Window, ip) == Scan(v, false);
    assert Sweep(v, 0, t2 - Window, ip) == Scan(v, true);
    assert Admission(v, t2, ip) == Decision(v, false);
    assert v[..0] + v[1..] == [];
    assert Sweep([], 1, t3 - Window, ip) == Scan([], false);
    assert Sweep(v, 0, t3 - Window, ip) == Scan([], false);
    assert Admission(v, t3, ip) == Decision([Visit(t3, ip)], true);
  }

  /**
   * The visit right behind an expired head is neither deleted nor examined:
   * it is kept whatever its time and address, and replacing it by any other
   * visit changes nothing else about the call.
   */
  lemma ExpiredSuccessorSurvives(s: seq<Visit>, now: int, ip: string, w: Visit)
    requires |s| >= 2 && Expired(s[0], now - Window)
    ensures var d := Admission(s, now, ip);
      |d.visits| >= 1 && d.visits[0] == s[1]
      && Admission(s[1 := w], now, ip) == Decision(d.visits[0 := w], d.admitted)
  {
    var threshold := now - Window;
    var t := s[1 := w];
    WalkFromStartIsPrune(s, threshold, ip);
    WalkFromStartIsPrune(t, threshold, ip);
    PruneAfterExpired(s, threshold, ip);
    PruneAfterExpired(t, threshold, ip);
    assert t[0] == s[0] && t[1] == w && t[2..] == s[2..];
    var inner := Prune(s[2..], threshold, ip);
    var kept := [s[1]] + inner.kept;
    assert Prune(s, threshold, ip) == Scan(kept, inner.denied);
    assert [w] + inner.kept == kept[0 := w];
    assert Prune(t, threshold, ip) == Scan(kept[0 := w], inner.denied);
    assert (kept + [Visit(now, ip)])[0 := w] == kept[0 := w] + [Visit(now, ip)];
  }

  /**
   * A live visit of the caller at the head denies the call without ending the
   * walk: the rest of the list is walked exactly as a list of its own would be.
   */
  lemma WalkContinuesPastCaller(s: seq<Visit>, now: int, ip: string)
    requires |s| >= 1 && !Expired(s[0], now - Window) && s[0].ip == ip
    ensures Admission(s, now, ip) == Decision([s[0]] + Sweep(s[1..], 0, now - Window, ip).kept, false)
  {
    var threshold := now - Window;
    WalkFromStartIsPrune(s, threshold, ip);
    WalkFromStartIsPrune(s[1..], threshold, ip);
    PruneAfterCaller(s, threshold, ip);
  }

  /**
   * As written, a repeat within the window is admitted when a live visit of
   * another address precedes the caller's: the walk stops there.
   */
  lemma ShieldedRepeatAdmitted()
    ensures var d1 := Admission([Visit(0, "b")], 1, "a");
      d1.admitted && d1.visits == [Visit(0, "b"), Visit(1, "a")]
      && Admission(d1.visits, 2, "a").admitted
  {
  }

  /**
   * As written, a repeat within the window is admitted when the caller's live
   * visit directly follows a deleted one: the walk passes over it.
   */
  lemma SkippedRepeatAdmitted()
    ensures Admission([Visit(0, "x"), Visit(95, "me")], 100, "me").admitted
  {
  }

  /** The visits of `s` that are not expired, in order. */
  function Live(s: seq<Visit>, threshold: int): (r: seq<Visit>)
    ensures forall v :: v in r <==> v in s && !Expired(v, threshold)
    ensures PrunedFrom(r, s, threshold)
    decreases |s|
  {
    if s == [] then []
    else if Expired(s[0], threshold) then Live(s[1..], threshold)
    else [s[0]] + Live(s[1..], threshold)
  }

  /**
   * The admission rule a per-address window calls for: every expired visit is
   * removed, and the call is denied exactly when a live visit of the caller exists.
   */
  function IntendedAdmission(visits: seq<Visit>, now: int, ip: string): (d: Decision)
    ensures d.admitted <==> !exists v :: v in visits && !Expired(v, now - Window) && v.ip == ip
  {
    var threshold := now - Window;
    var kept := Live(visits, threshold);
    if exists v :: v in kept && v.ip == ip then Decision(kept, false)
    else Decision(kept + [Visit(now, ip)], true)
  }

  /**
   * The loop errs only by admitting: every denial it gives, the intended rule
   * gives too, since a denial always rests on a live visit of the caller. The
   * first clause restates that part of the contract of `Admission`, which
   * the second clause rests on.
   */
  lemma DenialIsWarranted(visits: seq<Visit>, now: int, ip: string)
    ensures !Admission(visits, now, ip).admitted ==>
      exists w :: w in visits && w.time >= now - Window && w.ip == ip
    ensures !Admission(visits, now, ip).admitted ==> !IntendedAdmission(visits, now, ip).admitted
  {
  }

  /** Under the intended rule, any address admitted at `t` is denied at every `t2` with `t2 - Window <= t`. */
  lemma IntendedDeniesRepeat(visits: seq<Visit>, t: int, t2: int, ip: string)
    requires IntendedAdmission(visits, t, ip).admitted
    requires t2 - Window <= t
    ensures !IntendedAdmission(IntendedAdmission(visits, t, ip).visits, t2, ip).admitted
  {
  }

  /** The visit list every request of the handler shares. */
  class RateLimiter {
    var visits: seq<Visit>

    constructor ()
      ensures visits == []
    {
      visits := [];
    }

    /** Walk, prune and decide as the handler does for a request at `now` from `ip`. */
    method Admit(now: int, ip: string) returns (admitted: bool)
      modifies this
      ensures Decision(visits, admitted) == Admission(old(visits), now, ip)
    {
      var threshold := now - Window;
      admitted := true;
      var i: nat := 0;
      while i < |visits|
        invariant i <= |visits| + 1
        invariant Sweep(old(visits), 0, threshold, ip)
               == Scan(Sweep(visits, i, threshold, ip).kept, !admitted || Sweep(visits, i, threshold, ip).denied)
        decreases |visits| + 1 - i
      {
        var v := visits[i];
        if v.time < threshold {
          visits := visits[..i] + visits[i + 1..];
          i := i + 1;
        } else if v.ip == ip {
          admitted := false;
          i := i + 1;
        } else {
          break;
        }
      }
      if admitted {
        visits := visits + [Visit(now, ip)];
      }
    }
  }
}
