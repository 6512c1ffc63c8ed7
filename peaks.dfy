/**
 * `fetch_peak_times`: over the `noise_level_h` rows a station/date filter keeps, the loudest hour
 * of every (station, local date) and the loudest hour of every station, with ties broken by the
 * earlier date and then the earlier hour (`DISTINCT ON` after `ORDER BY laeq DESC, d_kst, h_kst`).
 */
module Peaks {
  import opened Wrappers
  import opened KstTime
  import opened NoiseStore

  /** A result row: station, local date, local hour of day (0..23) and level. */
  datatype Peak = Peak(station: nat, day: int, hour: int, laeq: real)

  /** `ts_hour_kst::date` and `EXTRACT(HOUR FROM ts_hour_kst)` of an hourly row. */
  function PeakOf(k: HourKey, row: HourRow): Peak {
    Peak(k.station, DayOf(k.localHour), HourOfDay(k.localHour), row.laeq)
  }

  /** The `WHERE` clause of `hh`; the date bound `dto` is exclusive. */
  predicate Selected(p: Peak, sid: Option<nat>, dfrom: Option<int>, dto: Option<int>) {
    && (sid.None? || p.station == sid.value)
    && (dfrom.None? || dfrom.value <= p.day)
    && (dto.None? || p.day < dto.value)
  }

  /** The rows of `hh`. */
  function Candidates(hourly: map<HourKey, HourRow>, sid: Option<nat>, dfrom: Option<int>, dto: Option<int>): set<Peak> {
    set k | k in hourly && Selected(PeakOf(k, hourly[k]), sid, dfrom, dto) :: PeakOf(k, hourly[k])
  }

  /** `a` comes before `b` in `ORDER BY laeq DESC, d_kst ASC, h_kst ASC`. */
  predicate Precedes(a: Peak, b: Peak) {
    a.laeq > b.laeq || (a.laeq == b.laeq && (a.day < b.day || (a.day == b.day && a.hour < b.hour)))
  }

  /** All peaks of `s` belong to one station. */
  predicate OneStation(s: set<Peak>) {
    forall p, q :: p in s && q in s ==> p.station == q.station
  }

  ghost function Choose(s: set<Peak>): Peak
    requires s != {}
  {
    var p :| p in s; p
  }

  /** The first row of `s` in the peak order: what `DISTINCT ON` keeps of a group. */
  ghost function Best(s: set<Peak>): (b: Peak)
    requires s != {} && OneStation(s)
    ensures b in s
    decreases s
  {
    var x := Choose(s);
    if s == {x} then x
    else
      var b := Best(s - {x});
      if Precedes(x, b) then x else b
  }

  /** The best row precedes every other row of the group. */
  lemma {:induction false} BestIsFirst(s: set<Peak>)
    requires s != {} && OneStation(s)
    ensures forall q :: q in s && q != Best(s) ==> Precedes(Best(s), q)
    decreases s
  {
    var x := Choose(s);
    if s != {x} {
      var rest := s - {x};
      BestIsFirst(rest);
      var b := Best(rest);
      PrecedesTotal(x, b);
      forall q | q in s && q != Best(s) ensures Precedes(Best(s), q) {
        if Precedes(x, b) && q != x && q != b {
          PrecedesTransitive(x, b, q);
        }
      }
    }
  }

  lemma PrecedesTransitive(a: Peak, b: Peak, c: Peak)
    requires Precedes(a, b) && Precedes(b, c)
    ensures Precedes(a, c)
  {
  }

  /** Two different rows of one station are ordered one way or the other. */
  lemma PrecedesTotal(a: Peak, b: Peak)
    requires a.station == b.station && a != b
    ensures Precedes(a, b) || Precedes(b, a)
  {
  }

  /** A group's best row is the only row that precedes every other row of the group. */
  lemma BestUnique(s: set<Peak>, b: Peak)
    requires s != {} && OneStation(s)
    requires b in s && forall q :: q in s && q != b ==> Precedes(b, q)
    ensures Best(s) == b
  {
    BestIsFirst(s);
  }

  /** The rows of station `st` on local date `d`. */
  function DayGroup(c: set<Peak>, st: nat, d: int): (g: set<Peak>)
    ensures OneStation(g)
    ensures forall p :: p in c && p.station == st && p.day == d ==> p in g
  {
    set p | p in c && p.station == st && p.day == d
  }

  /** The rows of station `st`. */
  function StationGroup(c: set<Peak>, st: nat): (g: set<Peak>)
    ensures OneStation(g)
    ensures forall p :: p in c && p.station == st ==> p in g
  {
    set p | p in c && p.station == st
  }

  /** `day_peak`: the best row of every (station, date) group. */
  ghost function DayPeaks(c: set<Peak>): set<Peak> {
    set p | p in c :: Best(DayGroup(c, p.station, p.day))
  }

  /** `global_peak`: the best row of every station. */
  ghost function GlobalPeaks(c: set<Peak>): set<Peak> {
    set p | p in c :: Best(StationGroup(c, p.station))
  }

  /** The two frames `fetch_peak_times` returns, as sets of rows. */
  ghost function FetchPeakTimes(hourly: map<HourKey, HourRow>, sid: Option<nat>, dfrom: Option<int>, dto: Option<int>): (set<Peak>, set<Peak>) {
    var c := Candidates(hourly, sid, dfrom, dto);
    (DayPeaks(c), GlobalPeaks(c))
  }

  /** A row is a candidate exactly when some hourly row in the filter gives it. */
  lemma CandidatesExactly(hourly: map<HourKey, HourRow>, sid: Option<nat>, dfrom: Option<int>, dto: Option<int>, k: HourKey)
    requires k in hourly
    ensures PeakOf(k, hourly[k]) in Candidates(hourly, sid, dfrom, dto) <==>
      (sid.None? || k.station == sid.value)
      && (dfrom.None? || dfrom.value <= DayOf(k.localHour))
      && (dto.None? || DayOf(k.localHour) < dto.value)
  {
    var p := PeakOf(k, hourly[k]);
    if p in Candidates(hourly, sid, dfrom, dto) {
      var k' :| k' in hourly && Selected(PeakOf(k', hourly[k']), sid, dfrom, dto) && PeakOf(k', hourly[k']) == p;
    }
  }

  /** Every (station, date) that has a row has a day peak, and only one. */
  lemma DayPeakPerGroup(c: set<Peak>, q: Peak, d1: Peak, d2: Peak)
    requires q in c
    ensures exists d :: d in DayPeaks(c) && d.station == q.station && d.day == q.day
    ensures d1 in DayPeaks(c) && d2 in DayPeaks(c) && d1.station == d2.station && d1.day == d2.day ==> d1 == d2
  {
    var b := Best(DayGroup(c, q.station, q.day));
    assert b in DayPeaks(c);
    if d1 in DayPeaks(c) && d2 in DayPeaks(c) && d1.station == d2.station && d1.day == d2.day {
      var p1 :| p1 in c && d1 == Best(DayGroup(c, p1.station, p1.day));
      var p2 :| p2 in c && d2 == Best(DayGroup(c, p2.station, p2.day));
      assert DayGroup(c, p1.station, p1.day) == DayGroup(c, p2.station, p2.day);
    }
  }

  /** A day peak is a row of its group with the greatest level, and the earliest hour among equally loud rows. */
  lemma DayPeakIsLoudest(c: set<Peak>, d: Peak, q: Peak)
    requires d in DayPeaks(c) && q in c && q.station == d.station && q.day == d.day
    ensures d in c
    ensures q.laeq <= d.laeq
    ensures q.laeq == d.laeq ==> d.hour <= q.hour
  {
    var p :| p in c && d == Best(DayGroup(c, p.station, p.day));
    BestIsFirst(DayGroup(c, p.station, p.day));
    assert q in DayGroup(c, p.station, p.day);
  }

  /** Every station that has a row has a global peak, and only one. */
  lemma GlobalPeakPerStation(c: set<Peak>, q: Peak, g1: Peak, g2: Peak)
    requires q in c
    ensures exists g :: g in GlobalPeaks(c) && g.station == q.station
    ensures g1 in GlobalPeaks(c) && g2 in GlobalPeaks(c) && g1.station == g2.station ==> g1 == g2
  {
    var b := Best(StationGroup(c, q.station));
    assert b in GlobalPeaks(c);
    if g1 in GlobalPeaks(c) && g2 in GlobalPeaks(c) && g1.station == g2.station {
      var p1 :| p1 in c && g1 == Best(StationGroup(c, p1.station));
      var p2 :| p2 in c && g2 == Best(StationGroup(c, p2.station));
      assert StationGroup(c, p1.station) == StationGroup(c, p2.station);
    }
  }

  /** A global peak has the station's greatest level; among equally loud rows, the earliest date, then hour. */
  lemma GlobalPeakIsLoudest(c: set<Peak>, g: Peak, q: Peak)
    requires g in GlobalPeaks(c) && q in c && q.station == g.station
    ensures g in c
    ensures q.laeq <= g.laeq
    ensures q.laeq == g.laeq ==> g.day < q.day || (g.day == q.day && g.hour <= q.hour)
  {
    var p :| p in c && g == Best(StationGroup(c, p.station));
    BestIsFirst(StationGroup(c, p.station));
    assert q in StationGroup(c, p.station);
  }

  /** A station's global peak is also the day peak of its date, and the loudest of the station's day peaks. */
  lemma GlobalPeakIsADayPeak(c: set<Peak>, g: Peak, d: Peak)
    requires g in GlobalPeaks(c)
    ensures g in DayPeaks(c)
    ensures d in DayPeaks(c) && d.station == g.station && d != g ==> Precedes(g, d)
  {
    var p :| p in c && g == Best(StationGroup(c, p.station));
    var sg := StationGroup(c, p.station);
    BestIsFirst(sg);
    var dg := DayGroup(c, g.station, g.day);
    assert g in dg;
    forall q | q in dg && q != g ensures Precedes(g, q) {
      assert q in sg;
    }
    BestUnique(dg, g);
    assert g in DayPeaks(c);
    if d in DayPeaks(c) && d.station == g.station && d != g {
      var pd :| pd in c && d == Best(DayGroup(c, pd.station, pd.day));
      assert d in sg;
    }
  }
}
