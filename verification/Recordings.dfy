/** The recording table: saves arrive in any order and are merged under a guard. */
module Recordings {
  import opened Seqs

  /** What a save brings. The empty status and the empty semantics take the columns' defaults. */
  datatype Meta = Meta(callId: string, filePath: string, mediaType: string, startedAt: int, endedAt: Option<int>,
                       retainUntil: Option<int>, fileSize: int, semantics: string, channels: int, duration: int,
                       status: string, reason: string, sampleRate: int, legPaths: map<string, string>)

  datatype Row = Row(meta: Meta, createdAt: int)

  function WithDefaults(m: Meta): Meta {
    m.(status := if m.status == "" then "completed" else m.status,
       semantics := if m.semantics == "" then "legacy" else m.semantics)
  }

  function Greatest(a: int, b: int): int { if a < b then b else a }

  /** SQL's GREATEST ignores NULL. */
  function Later(a: Option<int>, b: Option<int>): Option<int> {
    match (a, b)
    case (None, _) => b
    case (_, None) => a
    case (Some(x), Some(y)) => Some(Greatest(x, y))
  }

  /** The condition of the conflict clause. */
  predicate Admits(stored: string, incoming: string) {
    (stored != "failed" || incoming == "failed") && (incoming != "recording" || stored == "recording")
  }

  /** The merge; the row keeps its call and its time of creation. */
  function Merge(stored: Row, m: Meta): Row {
    if !Admits(stored.meta.status, m.status) then stored
    else
      Row(m.(callId := stored.meta.callId,
             duration := Greatest(stored.meta.duration, m.duration),
             fileSize := Greatest(stored.meta.fileSize, m.fileSize),
             endedAt := Later(stored.meta.endedAt, m.endedAt), legPaths := stored.meta.legPaths + m.legPaths,
             reason := if stored.meta.reason != "" then stored.meta.reason else m.reason),
          stored.createdAt)
  }

  /** The table after a save: a new row, or the merge with the one there is. */
  function SavedIn(rows: map<string, Row>, id: string, rec: Meta, now: int): (r: map<string, Row>)
    ensures id in r
  {
    rows[id := if id in rows then Merge(rows[id], WithDefaults(rec)) else Row(WithDefaults(rec), now)]
  }

  class RecordingTable {
    var rows: map<string, Row>

    constructor ()
      ensures rows == map[]
    {
      rows := map[];
    }

    /** One save in a transaction. What is published is the merged row, not what came in. */
    method Save(id: string, rec: Meta, now: int, upsert: bool, publish: bool, commit: Db)
        returns (published: Option<Meta>)
      modifies this
      ensures rows == if upsert && publish && !commit.Broken? then SavedIn(old(rows), id, rec, now) else old(rows)
      ensures published == if upsert && publish && !commit.Broken? then Some(rows[id].meta) else None
    {
      var m := rec;
      if m.status == "" {
        m := m.(status := "completed");
      }
      if m.semantics == "" {
        m := m.(semantics := "legacy");
      }
      if !upsert {
        return None;
      }
      var row := Row(m, now);
      if id in rows {
        row := rows[id];
        if (row.meta.status != "failed" || m.status == "failed")
          && (m.status != "recording" || row.meta.status == "recording") {
          var was := row.meta;
          var reason := if was.reason == "" then m.reason else was.reason;
          row := row.(meta := m.(callId := was.callId, duration := Greatest(was.duration, m.duration),
                                 fileSize := Greatest(was.fileSize, m.fileSize),
                                 endedAt := Later(was.endedAt, m.endedAt),
                                 legPaths := was.legPaths + m.legPaths, reason := reason));
        }
      }
      if !publish || commit.Broken? {
        return None;
      }
      rows := rows[id := row];
      published := Some(row.meta);
    }
  }

  // ---------------------------------------------------------------- any sequence of saves

  /** The row after the first `n` of the saves of one recording. */
  function Saved(saves: seq<Meta>, now: int, n: nat): Row
    requires 0 < n <= |saves|
  {
    if n == 1 then Row(WithDefaults(saves[0]), now) else Merge(Saved(saves, now, n - 1), WithDefaults(saves[n - 1]))
  }

  /** Save number `k` changes the row. */
  predicate AcceptedAt(saves: seq<Meta>, now: int, k: nat)
    requires k < |saves|
  {
    k == 0 || Admits(Saved(saves, now, k).meta.status, WithDefaults(saves[k]).status)
  }

  /** How far a recording has got: recording, completed (or any other status), failed. */
  function Rank(status: string): nat { if status == "recording" then 0 else if status == "failed" then 2 else 1 }

  function RankOf(m: Meta): nat { Rank(WithDefaults(m).status) }

  /** The guard is the order of ranks. */
  lemma GuardIsRank(a: string, b: string)
    ensures Admits(a, b) <==> Rank(a) <= Rank(b)
  {
    assert "failed"[0] != "recording"[0];
  }

  /** Whatever the order of the saves, the row stands at the highest rank any of them had. */
  lemma {:induction false} StatusIsTheMaximum(saves: seq<Meta>, now: int, n: nat)
    requires 0 < n <= |saves|
    ensures forall k :: 0 <= k < n ==> RankOf(saves[k]) <= Rank(Saved(saves, now, n).meta.status)
    ensures exists k :: 0 <= k < n && WithDefaults(saves[k]).status == Saved(saves, now, n).meta.status
  {
    hide Rank, Admits;
    if n == 1 {
      assert WithDefaults(saves[0]).status == Saved(saves, now, n).meta.status;
    } else {
      StatusIsTheMaximum(saves, now, n - 1);
      GuardIsRank(Saved(saves, now, n - 1).meta.status, WithDefaults(saves[n - 1]).status);
      if AcceptedAt(saves, now, n - 1) {
        assert WithDefaults(saves[n - 1]).status == Saved(saves, now, n).meta.status;
      } else {
        var k :| 0 <= k < n - 1 && WithDefaults(saves[k]).status == Saved(saves, now, n - 1).meta.status;
        assert WithDefaults(saves[k]).status == Saved(saves, now, n).meta.status;
      }
    }
  }

  /** No earlier save has got further than save number `k`. */
  ghost predicate InRank(saves: seq<Meta>, k: nat)
    requires k < |saves|
  {
    forall j :: 0 <= j < k ==> RankOf(saves[j]) <= RankOf(saves[k])
  }

  /** A save is merged exactly if no earlier one, merged or not, has a higher rank. */
  lemma AcceptedIffInRank(saves: seq<Meta>, now: int, k: nat)
    requires k < |saves|
    ensures AcceptedAt(saves, now, k) <==> InRank(saves, k)
  {
    hide Saved, Rank, Admits;
    if k > 0 {
      StatusIsTheMaximum(saves, now, k);
      GuardIsRank(Saved(saves, now, k).meta.status, WithDefaults(saves[k]).status);
      var i :| 0 <= i < k && WithDefaults(saves[i]).status == Saved(saves, now, k).meta.status;
      assert Rank(Saved(saves, now, k).meta.status) == RankOf(saves[i]);
    }
  }

  predicate Known(status: string) { status in {"recording", "completed", "failed"} }

  /** Two orders, or any repetitions, of the same saves agree on the status. */
  lemma OrderDoesNotMatter(a: seq<Meta>, b: seq<Meta>, now: int, later: int)
    requires a != [] && b != []
    requires (forall k :: 0 <= k < |a| ==> a[k] in b) && (forall k :: 0 <= k < |b| ==> b[k] in a)
    requires forall k :: 0 <= k < |a| ==> Known(WithDefaults(a[k]).status)
    ensures Saved(a, now, |a|).meta.status == Saved(b, later, |b|).meta.status
  {
    hide Saved, Rank, Known, WithDefaults;
    StatusIsTheMaximum(a, now, |a|);
    StatusIsTheMaximum(b, later, |b|);
    var i :| 0 <= i < |a| && WithDefaults(a[i]).status == Saved(a, now, |a|).meta.status;
    var j :| 0 <= j < |b| && WithDefaults(b[j]).status == Saved(b, later, |b|).meta.status;
    var i' :| 0 <= i' < |b| && b[i'] == a[i];
    var j' :| 0 <= j' < |a| && a[j'] == b[j];
    assert RankOf(b[i']) <= RankOf(b[j]) && RankOf(a[j']) <= RankOf(a[i]);
    SameRankSameStatus(WithDefaults(a[i]).status, WithDefaults(a[j']).status);
  }

  lemma SameRankSameStatus(a: string, b: string)
    requires Known(a) && Known(b) && Rank(a) == Rank(b)
    ensures a == b
  {
    assert "failed"[0] != "recording"[0] && "completed"[0] != "recording"[0] && "completed"[0] != "failed"[0];
  }

  predicate NotEarlier(a: Option<int>, b: Option<int>) { a.None? || (b.Some? && a.value <= b.value) }

  /** Nothing of a row gets less. */
  predicate Grows(a: Meta, b: Meta) {
    && a.duration <= b.duration && a.fileSize <= b.fileSize && NotEarlier(a.endedAt, b.endedAt)
    && (a.reason != "" ==> b.reason == a.reason) && a.legPaths.Keys <= b.legPaths.Keys && a.callId == b.callId
  }

  lemma MergeGrows(stored: Row, m: Meta)
    ensures Grows(stored.meta, Merge(stored, m).meta)
  {
  }

  /** Duration, size and end never go back, and the reason and the tracks of legs never get lost. */
  lemma {:induction false} NothingGoesBack(saves: seq<Meta>, now: int, i: nat, j: nat)
    requires 0 < i <= j <= |saves|
    ensures Grows(Saved(saves, now, i).meta, Saved(saves, now, j).meta)
    decreases j
  {
    hide Merge, WithDefaults;
    if i == j {
    } else {
      NothingGoesBack(saves, now, i, j - 1);
      MergeGrows(Saved(saves, now, j - 1), WithDefaults(saves[j - 1]));
    }
  }

  /** The first reason that is not empty among the accepted saves, searched from the front. */
  function FirstReason(saves: seq<Meta>, now: int, n: nat): string
    requires n <= |saves|
  {
    if n == 0 then ""
    else if FirstReason(saves, now, n - 1) != "" then FirstReason(saves, now, n - 1)
    else if AcceptedAt(saves, now, n - 1) then saves[n - 1].reason else ""
  }

  lemma FirstSave(saves: seq<Meta>, now: int)
    requires saves != []
    ensures var m := Saved(saves, now, 1).meta;
      AcceptedAt(saves, now, 0) && m.duration == saves[0].duration && m.fileSize == saves[0].fileSize
        && m.reason == saves[0].reason
  {
  }

  lemma LastSave(saves: seq<Meta>, now: int, n: nat)
    requires 1 < n <= |saves|
    ensures var before, after, m := Saved(saves, now, n - 1).meta, Saved(saves, now, n).meta, saves[n - 1];
      if AcceptedAt(saves, now, n - 1)
      then after.duration == Greatest(before.duration, m.duration)
        && after.fileSize == Greatest(before.fileSize, m.fileSize)
           && after.reason == (if before.reason != "" then before.reason else m.reason)
      else after == before
  {
    hide Admits;
  }

  lemma {:induction false} LongestAccepted(saves: seq<Meta>, now: int, n: nat)
    requires 0 < n <= |saves|
    ensures var d := Saved(saves, now, n).meta.duration;
      && (forall k :: 0 <= k < n && AcceptedAt(saves, now, k) ==> saves[k].duration <= d)
      && (exists k :: 0 <= k < n && AcceptedAt(saves, now, k) && saves[k].duration == d)
  {
    hide Saved, AcceptedAt;
    if n == 1 {
      FirstSave(saves, now);
    } else {
      LastSave(saves, now, n);
      LongestAccepted(saves, now, n - 1);
      var i :| 0 <= i < n - 1 && AcceptedAt(saves, now, i)
        && saves[i].duration == Saved(saves, now, n - 1).meta.duration;
    }
  }

  lemma {:induction false} LargestAccepted(saves: seq<Meta>, now: int, n: nat)
    requires 0 < n <= |saves|
    ensures var size := Saved(saves, now, n).meta.fileSize;
      && (forall k :: 0 <= k < n && AcceptedAt(saves, now, k) ==> saves[k].fileSize <= size)
      && (exists k :: 0 <= k < n && AcceptedAt(saves, now, k) && saves[k].fileSize == size)
  {
    hide Saved, AcceptedAt;
    if n == 1 {
      FirstSave(saves, now);
    } else {
      LastSave(saves, now, n);
      LargestAccepted(saves, now, n - 1);
      var i :| 0 <= i < n - 1 && AcceptedAt(saves, now, i)
        && saves[i].fileSize == Saved(saves, now, n - 1).meta.fileSize;
    }
  }

  lemma {:induction false} FirstReasonStays(saves: seq<Meta>, now: int, n: nat)
    requires 0 < n <= |saves|
    ensures Saved(saves, now, n).meta.reason == FirstReason(saves, now, n)
  {
    hide Saved, AcceptedAt;
    FirstSave(saves, now);
    if n > 1 {
      LastSave(saves, now, n);
      FirstReasonStays(saves, now, n - 1);
    }
  }

  /** Duration and size are the greatest, and the reason the first that is not empty, among the accepted saves. */
  lemma AcceptedSavesDecide(saves: seq<Meta>, now: int, n: nat)
    requires 0 < n <= |saves|
    ensures var m := Saved(saves, now, n).meta;
      && (forall k :: 0 <= k < n && AcceptedAt(saves, now, k) ==>
        saves[k].duration <= m.duration && saves[k].fileSize <= m.fileSize)
      && (exists k :: 0 <= k < n && AcceptedAt(saves, now, k) && saves[k].duration == m.duration)
      && (exists k :: 0 <= k < n && AcceptedAt(saves, now, k) && saves[k].fileSize == m.fileSize)
      && m.reason == FirstReason(saves, now, n)
  {
    hide Saved, AcceptedAt, FirstReason;
    LongestAccepted(saves, now, n);
    LargestAccepted(saves, now, n);
    FirstReasonStays(saves, now, n);
  }

  /** Save number `k` is the last of the first `n` that is merged and meets `p`. */
  ghost predicate LastAccepted(saves: seq<Meta>, now: int, n: nat, k: nat, p: Meta -> bool)
    requires k < n <= |saves|
  {
    && AcceptedAt(saves, now, k) && p(saves[k])
    && forall j :: k < j < n && AcceptedAt(saves, now, j) ==> !p(saves[j])
  }

  /** The columns a merge takes as they come. */
  predicate TakesFrom(m: Meta, s: Meta) {
    && m.filePath == s.filePath && m.mediaType == s.mediaType && m.startedAt == s.startedAt
    && m.retainUntil == s.retainUntil && m.channels == s.channels && m.sampleRate == s.sampleRate
    && m.status == (if s.status == "" then "completed" else s.status)
    && m.semantics == (if s.semantics == "" then "legacy" else s.semantics)
  }

  lemma FirstRow(saves: seq<Meta>, now: int)
    requires saves != []
    ensures var r := Saved(saves, now, 1);
      && r.meta.callId == saves[0].callId && r.createdAt == now && TakesFrom(r.meta, saves[0])
      && r.meta.endedAt == saves[0].endedAt && r.meta.legPaths == saves[0].legPaths && AcceptedAt(saves, now, 0)
  {
  }

  lemma LastSaveAdds(saves: seq<Meta>, now: int, n: nat)
    requires 1 < n <= |saves|
    ensures var before, after, s := Saved(saves, now, n - 1), Saved(saves, now, n), saves[n - 1];
      && after.createdAt == before.createdAt && after.meta.callId == before.meta.callId
      && if AcceptedAt(saves, now, n - 1)
         then
           && after.meta.endedAt == Later(before.meta.endedAt, s.endedAt)
           && after.meta.legPaths == before.meta.legPaths + s.legPaths && TakesFrom(after.meta, s)
         else after == before
  {
    hide Admits, Later;
  }

  /** The row keeps its call and its time of creation; what a merge does not accumulate is from the last merged save. */
  lemma {:induction false} LastSaveDecidesTheRest(saves: seq<Meta>, now: int, n: nat) returns (k: nat)
    requires 0 < n <= |saves|
    ensures k < n && LastAccepted(saves, now, n, k, _ => true) && TakesFrom(Saved(saves, now, n).meta, saves[k])
    ensures Saved(saves, now, n).meta.callId == saves[0].callId && Saved(saves, now, n).createdAt == now
  {
    hide Saved, AcceptedAt, TakesFrom;
    if n == 1 {
      FirstRow(saves, now);
      k := 0;
    } else {
      LastSaveAdds(saves, now, n);
      k := LastSaveDecidesTheRest(saves, now, n - 1);
      if AcceptedAt(saves, now, n - 1) {
        k := n - 1;
      }
    }
  }

  /** The end is the latest among the merged saves that have one. */
  lemma {:induction false} LatestEndIsKept(saves: seq<Meta>, now: int, n: nat)
    requires 0 < n <= |saves|
    ensures var end := Saved(saves, now, n).meta.endedAt;
      && (forall k :: 0 <= k < n && AcceptedAt(saves, now, k) && saves[k].endedAt.Some? ==>
            end.Some? && saves[k].endedAt.value <= end.value)
      && (end.Some? ==> exists k :: 0 <= k < n && AcceptedAt(saves, now, k) && saves[k].endedAt == end)
  {
    hide Saved, AcceptedAt;
    if n == 1 {
      FirstRow(saves, now);
    } else {
      LatestEndIsKept(saves, now, n - 1);
      LastSaveAdds(saves, now, n);
      var before := Saved(saves, now, n - 1).meta.endedAt;
      if before.Some? {
        var i :| 0 <= i < n - 1 && AcceptedAt(saves, now, i) && saves[i].endedAt == before;
      }
    }
  }

  /** The track of a leg is the one the last merged save with a track of that leg brought. */
  ghost predicate TrackOf(saves: seq<Meta>, now: int, n: nat, leg: string, paths: map<string, string>)
    requires n <= |saves|
  {
    if leg in paths
    then exists k :: 0 <= k < n && LastAccepted(saves, now, n, k, (s: Meta) => leg in s.legPaths)
                     && leg in saves[k].legPaths && paths[leg] == saves[k].legPaths[leg]
    else forall k :: 0 <= k < n && AcceptedAt(saves, now, k) ==> leg !in saves[k].legPaths
  }

  lemma TrackKept(saves: seq<Meta>, now: int, n: nat, leg: string, before: map<string, string>, after: map<string,
      string>)
    requires 1 < n <= |saves| && TrackOf(saves, now, n - 1, leg, before)
    requires after == if AcceptedAt(saves, now, n - 1) then before + saves[n - 1].legPaths else before
    ensures TrackOf(saves, now, n, leg, after)
  {
    hide AcceptedAt;
    var p := (s: Meta) => leg in s.legPaths;
    if AcceptedAt(saves, now, n - 1) && leg in saves[n - 1].legPaths {
      assert LastAccepted(saves, now, n, n - 1, p);
    } else if leg in before {
      var k :| 0 <= k < n - 1 && LastAccepted(saves, now, n - 1, k, p) && leg in saves[k].legPaths
        && before[leg] == saves[k].legPaths[leg];
      assert LastAccepted(saves, now, n, k, p);
    }
  }

  lemma {:induction false} LastTrackIsKept(saves: seq<Meta>, now: int, n: nat, leg: string)
    requires 0 < n <= |saves|
    ensures TrackOf(saves, now, n, leg, Saved(saves, now, n).meta.legPaths)
  {
    hide Saved, AcceptedAt;
    if n == 1 {
      var p := (s: Meta) => leg in s.legPaths;
      FirstRow(saves, now);
      assert p(saves[0]) ==> LastAccepted(saves, now, 1, 0, p);
    } else {
      hide TrackOf;
      LastTrackIsKept(saves, now, n - 1, leg);
      LastSaveAdds(saves, now, n);
      TrackKept(saves, now, n, leg, Saved(saves, now, n - 1).meta.legPaths, Saved(saves, now, n).meta.legPaths);
    }
  }

  // ---------------------------------------------------------------- what the guard costs

  ghost predicate LongestIsKept(saves: seq<Meta>, now: int)
    requires saves != []
  {
    forall k :: 0 <= k < |saves| ==> saves[k].duration <= Saved(saves, now, |saves|).meta.duration
  }

  /** Save `k` is matched by one at least as long that keeps to the ranks. */
  ghost predicate Matched(saves: seq<Meta>, k: nat)
    requires k < |saves|
  {
    exists j :: 0 <= j < |saves| && InRank(saves, j) && saves[k].duration <= saves[j].duration
  }

  /** The row has the longest duration of all saves exactly if every save that comes after one of a higher rank is
      matched. */
  lemma LongestIsKeptIffLostOnesAreMatched(saves: seq<Meta>, now: int)
    requires saves != []
    ensures LongestIsKept(saves, now) <==> forall k :: 0 <= k < |saves| && !InRank(saves, k) ==> Matched(saves, k)
  {
    hide Saved, AcceptedAt, InRank;
    LongestAccepted(saves, now, |saves|);
    forall k | 0 <= k < |saves|
      ensures AcceptedAt(saves, now, k) <==> InRank(saves, k)
    {
      AcceptedIffInRank(saves, now, k);
    }
    var d := Saved(saves, now, |saves|).meta.duration;
    var i :| 0 <= i < |saves| && AcceptedAt(saves, now, i) && saves[i].duration == d;
    forall k | 0 <= k < |saves|
      ensures saves[k].duration <= d <==> InRank(saves, k) || Matched(saves, k)
    {
      if Matched(saves, k) {
        var j :| 0 <= j < |saves| && InRank(saves, j) && saves[k].duration <= saves[j].duration;
      }
    }
  }

  /** Saves that never fall back in rank are all accepted, so that the row has the longest duration of all. */
  lemma RisingSavesKeepTheLongest(saves: seq<Meta>, now: int)
    requires saves != [] && forall i, j :: 0 <= i < j < |saves| ==> RankOf(saves[i]) <= RankOf(saves[j])
    ensures LongestIsKept(saves, now)
  {
    hide Saved, Rank;
    LongestIsKeptIffLostOnesAreMatched(saves, now);
  }

  /** A save whose rank has been passed is not merged at all: whenever it is longer than the row, its length is lost. */
  lemma LateLongerSaveIsLost(saves: seq<Meta>, late: Meta, now: int)
    requires saves != [] && RankOf(late) < Rank(Saved(saves, now, |saves|).meta.status)
    ensures Saved(saves + [late], now, |saves| + 1) == Saved(saves, now, |saves|)
    ensures late.duration > Saved(saves, now, |saves|).meta.duration ==> !LongestIsKept(saves + [late], now)
  {
    SavedPrefix(saves, late, now, |saves|);
    GuardIsRank(Saved(saves, now, |saves|).meta.status, WithDefaults(late).status);
    hide Rank, Admits;
    assert (saves + [late])[|saves|] == late;
  }

  lemma {:induction false} SavedPrefix(saves: seq<Meta>, late: Meta, now: int, n: nat)
    requires 0 < n <= |saves|
    ensures Saved(saves + [late], now, n) == Saved(saves, now, n)
  {
    if n > 1 {
      SavedPrefix(saves, late, now, n - 1);
    }
  }
}
