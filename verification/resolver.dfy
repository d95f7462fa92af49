/** The interval resolver shared by the Orai, Gowri Panchangam and Asubha
    Kaalam lookups: the three are the same algorithm over three tables.

    A table maps a Tamil day name to its day and night buckets; a bucket is
    the sequence of interval keys in their stored (insertion) order, each
    key already split at '-' and both ends read as minutes of the 12-hour
    clock, together with the entry's name and type. */
module Resolver {
  import opened Wrappers
  import opened Clock

  /** The entry type: subham (auspicious) or asubham. */
  datatype Kind = Subham | Asubham

  /** One interval key `"H:M-H:M"` of a bucket (its two ends in minutes)
      with the entry stored under it. */
  datatype Entry = Entry(start: int, end: int, name: string, kind: Kind)

  type Bucket = seq<Entry>

  type Table = map<string, map<Period, Bucket>>

  /** The bucket a time selects: the floor of the hour, before any 12-hour reduction. */
  function PeriodAt(t: int): (p: Period)
    ensures p == Day <==> 360 <= t < 1080
  {
    PeriodOfHour(t / 60)
  }

  /** `if (time > 12) time -= 12`, in minutes. */
  function Reduce12(t: int): (u: int)
    ensures u == t - 720 <==> t > 720
    ensures t <= 720 ==> u == t
    ensures 0 <= t <= 1440 ==> 0 <= u <= 720
  {
    if t > 720 then t - 720 else t
  }

  /** Whether an interval key matches a (reduced) time: a key whose start
      lies after its end wraps round the 12-hour boundary. */
  function Covers(e: Entry, u: int): (b: bool)
    ensures e.start <= e.end ==> (b <==> e.start <= u < e.end)
    ensures e.start > e.end ==> (b <==> !(e.end <= u < e.start))
  {
    if e.start > e.end then e.start <= u || u < e.end
    else e.start <= u < e.end
  }

  /** Entry `k` is the first key at or after `from` that matches `u`. */
  predicate IsFirstCover(b: Bucket, u: int, from: nat, k: int) {
    && from <= k < |b|
    && Covers(b[k], u)
    && forall j :: from <= j < k ==> !Covers(b[j], u)
  }

  /** The `for ... in` scan of a bucket from position `i`, returning the
      position of the matching key. As in the original, the time is reduced
      by 12 hours at the top of every iteration, not once before the loop. */
  function ScanFrom(b: Bucket, t: int, i: nat): (k: Option<nat>)
    requires i <= |b|
    ensures k.Some? ==> i <= k.value < |b|
    ensures t <= 1440 && k.Some? ==> IsFirstCover(b, Reduce12(t), i, k.value)
    ensures t <= 1440 && k.None? ==> forall j :: i <= j < |b| ==> !Covers(b[j], Reduce12(t))
    decreases |b| - i
  {
    if i == |b| then None
    else
      var u := Reduce12(t);
      if Covers(b[i], u) then Some(i) else ScanFrom(b, u, i + 1)
  }

  /** `getOrai` / `getGowriPanchangam` / `getAsubhaKaalam` over one table:
      `None` stands for the `null` each of them returns. */
  function Resolve(table: Table, day: string, t: int): (r: Option<Entry>)
    ensures day !in table ==> r.None?
    ensures day in table && PeriodAt(t) !in table[day] ==> r.None?
    ensures r.Some? ==> day in table && PeriodAt(t) in table[day] && r.value in table[day][PeriodAt(t)]
    ensures day in table && PeriodAt(t) in table[day] && t <= 1440 ==>
      var b := table[day][PeriodAt(t)];
      && (r.None? <==> forall j :: 0 <= j < |b| ==> !Covers(b[j], Reduce12(t)))
      && (r.Some? ==> exists k :: IsFirstCover(b, Reduce12(t), 0, k) && r.value == b[k])
  {
    if day !in table then None
    else
      var buckets := table[day];
      var p := PeriodAt(t);
      if p !in buckets then None
      else
        var b := buckets[p];
        match ScanFrom(b, t, 0)
        case None => None
        case Some(k) => Some(b[k])
  }

  /** At most one position is the first match. */
  lemma FirstCoverUnique(b: Bucket, u: int, k1: int, k2: int)
    requires IsFirstCover(b, u, 0, k1) && IsFirstCover(b, u, 0, k2)
    ensures k1 == k2
  {
  }

  /** When exactly one key of the selected bucket matches (a bucket that
      tiles its half-day without overlaps), the resolver returns that key's
      entry, whatever the stored order. */
  lemma ResolveTheOnlyCover(table: Table, day: string, t: int, k: int)
    requires day in table && PeriodAt(t) in table[day] && t <= 1440
    requires 0 <= k < |table[day][PeriodAt(t)]|
    requires Covers(table[day][PeriodAt(t)][k], Reduce12(t))
    requires forall j :: 0 <= j < |table[day][PeriodAt(t)]| && j != k ==>
               !Covers(table[day][PeriodAt(t)][j], Reduce12(t))
    ensures Resolve(table, day, t) == Some(table[day][PeriodAt(t)][k])
  {
    var b := table[day][PeriodAt(t)];
    var r := Resolve(table, day, t);
    assert r.Some?;
    var k' :| IsFirstCover(b, Reduce12(t), 0, k') && r.value == b[k'];
    assert IsFirstCover(b, Reduce12(t), 0, k);
    FirstCoverUnique(b, Reduce12(t), k, k');
  }

  /** The wraparound key "10:00-4:00" of a night bucket matches 23:30 and
      02:00 but not 21:00. */
  lemma WraparoundExample()
    ensures var table := map["day" := map[Night := [Entry(600, 240, "x", Subham)]]];
      && Resolve(table, "day", 1410) == Some(Entry(600, 240, "x", Subham))
      && Resolve(table, "day", 120) == Some(Entry(600, 240, "x", Subham))
      && Resolve(table, "day", 1260) == None
  {
  }

  /** Reducing on every iteration agrees with reducing once only up to 24
      hours: from 30:00 the second key is compared with 06:00, not with 18:00. */
  lemma ReductionRepeatsPastOneDay()
    ensures var b := [Entry(0, 60, "a", Subham), Entry(300, 420, "b", Subham)];
      && ScanFrom(b, 1800, 0) == Some(1)
      && !Covers(b[1], Reduce12(1800))
  {
  }
}
