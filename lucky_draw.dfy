/** The lucky-draw tab (components/LuckyDrawSection.tsx): the candidate pool
    derived from the participants, the winners so far and the repeat flag; a
    draw that moves one candidate to the front of the winners; reset; and the
    rows of the results export. */
module LuckyDraw {
  import opened Common

  // ---------------------------------------------------------------------
  // The candidate pool (components/LuckyDrawSection.tsx:26-34)

  /** The participants whose id is not in `ids`, in their original order. */
  function ExcludeIds(ps: seq<Participant>, ids: set<string>): (r: seq<Participant>)
    ensures |r| <= |ps|
    ensures forall p :: p in r <==> p in ps && p.id !in ids
  {
    if ps == [] then []
    else if ps[0].id in ids then ExcludeIds(ps[1..], ids)
    else [ps[0]] + ExcludeIds(ps[1..], ids)
  }

  /** Who can be drawn: everybody when repeats are allowed, otherwise the
      participants whose id is not among the winners' ids. */
  function Pool(participants: seq<Participant>, winners: seq<Participant>, allowRepeats: bool): seq<Participant>
  {
    if allowRepeats then participants else ExcludeIds(participants, Ids(winners))
  }

  lemma {:induction false} ExcludeIdsSubsequence(ps: seq<Participant>, ids: set<string>)
    ensures IsSubsequence(ExcludeIds(ps, ids), ps)
  {
    if ps != [] {
      var rest := ExcludeIds(ps[1..], ids);
      ExcludeIdsSubsequence(ps[1..], ids);
      assert [ps[0]] + ps[1..] == ps;
      if ps[0].id in ids {
        SubsequenceCons(rest, ps[0], ps[1..]);
      } else {
        assert ([ps[0]] + rest)[1..] == rest;
      }
    }
  }

  lemma {:induction false} ExcludeNothing(ps: seq<Participant>)
    ensures ExcludeIds(ps, {}) == ps
  {
    if ps != [] {
      ExcludeNothing(ps[1..]);
    }
  }

  /** What the pool holds: with repeats, the list itself; without, exactly the
      participants whose id has not won, in their original order, so that no
      winner is in it. */
  lemma PoolContents(ps: seq<Participant>, winners: seq<Participant>, allowRepeats: bool)
    ensures allowRepeats ==> Pool(ps, winners, allowRepeats) == ps
    ensures !allowRepeats ==> IsSubsequence(Pool(ps, winners, allowRepeats), ps)
    ensures !allowRepeats ==>
              forall p :: p in Pool(ps, winners, allowRepeats) <==> p in ps && p.id !in Ids(winners)
    ensures !allowRepeats ==> forall w :: w in winners ==> w !in Pool(ps, winners, allowRepeats)
  {
    if !allowRepeats {
      ExcludeIdsSubsequence(ps, Ids(winners));
      forall w | w in winners ensures w.id in Ids(winners) {
        InIds(winners, w.id);
      }
    }
  }

  lemma {:induction false} ExcludeIdsCount(ps: seq<Participant>, ids: set<string>)
    requires DistinctIds(ps)
    ensures |ExcludeIds(ps, ids)| + |ids * Ids(ps)| == |ps|
  {
    if ps != [] {
      var p := ps[0];
      var rest := ps[1..];
      assert DistinctIds(rest) by {
        forall i, j | 0 <= i < j < |rest| ensures rest[i].id != rest[j].id {
          assert rest[i] == ps[i + 1] && rest[j] == ps[j + 1];
        }
      }
      assert p.id !in Ids(rest) by {
        InIds(rest, p.id);
        forall i | 0 <= i < |rest| ensures rest[i].id != p.id {
          assert rest[i] == ps[i + 1];
        }
      }
      ExcludeIdsCount(rest, ids);
      if p.id in ids {
        assert ids * Ids(ps) == (ids * Ids(rest)) + {p.id};
      } else {
        assert ids * Ids(ps) == ids * Ids(rest);
      }
    }
  }

  /** Without repeats, when participant ids are distinct and the winners are
      distinct participants, each winner removes exactly one candidate; with
      repeats the pool keeps every participant. */
  lemma PoolSize(ps: seq<Participant>, winners: seq<Participant>)
    requires DistinctIds(ps) && DistinctIds(winners)
    requires Ids(winners) <= Ids(ps)
    ensures |Pool(ps, winners, false)| == |ps| - |winners|
    ensures |Pool(ps, winners, true)| == |ps|
  {
    ExcludeIdsCount(ps, Ids(winners));
    assert Ids(winners) * Ids(ps) == Ids(winners);
    DistinctIdsCard(winners);
  }

  /** A draw from the pool without repeats keeps the winners' ids distinct and
      keeps every winner's id among the participants'. */
  lemma DrawKeepsIdsDistinct(ps: seq<Participant>, winners: seq<Participant>, idx: nat)
    requires DistinctIds(winners)
    requires idx < |Pool(ps, winners, false)|
    ensures DistinctIds([Pool(ps, winners, false)[idx]] + winners)
    ensures Ids(winners) <= Ids(ps) ==> Ids([Pool(ps, winners, false)[idx]] + winners) <= Ids(ps)
  {
    var w := Pool(ps, winners, false)[idx];
    var ws := [w] + winners;
    assert w in Pool(ps, winners, false);
    assert w.id !in Ids(winners) && w in ps;
    InIds(winners, w.id);
    InIds(ps, w.id);
    assert ws[1..] == winners;
    forall i, j | 0 <= i < j < |ws| ensures ws[i].id != ws[j].id {
      assert ws[j] == winners[j - 1];
      if i > 0 {
        assert ws[i] == winners[i - 1];
      }
    }
  }

  // ---------------------------------------------------------------------
  // The results export (components/LuckyDrawSection.tsx:77-81)

  /** Row `i` holds the rank `|winners| - i` and the name of `winners[i]`. */
  function RankRows(winners: seq<Participant>): seq<seq<string>>
  {
    seq(|winners|, i requires 0 <= i < |winners| => [NatToString(|winners| - i), winners[i].name])
  }

  /** The export: nothing when no one has won yet, otherwise the rank rows
      under the header 順序, 中獎者. */
  function ExportWinners(winners: seq<Participant>): Option<CsvExport>
  {
    if winners == [] then None
    else Some(CsvExport("抽獎結果.csv", ["順序", "中獎者"], RankRows(winners)))
  }

  /** The export lists every winner, most recent first, with ranks running
      from the number of winners down to 1; the first draw is ranked 1. */
  lemma ExportRanks(winners: seq<Participant>)
    ensures ExportWinners(winners) == None <==> winners == []
    ensures winners != [] ==>
              var e := ExportWinners(winners).value;
              e.header == ["順序", "中獎者"] && |e.rows| == |winners| &&
              (forall i :: 0 <= i < |e.rows| ==>
                 |e.rows[i]| == 2 && IsDigits(e.rows[i][0]) &&
                 DecimalValue(e.rows[i][0]) == |winners| - i &&
                 e.rows[i][1] == winners[i].name) &&
              DecimalValue(e.rows[0][0]) == |winners| &&
              DecimalValue(e.rows[|winners| - 1][0]) == 1
  {
    if winners != [] {
      var rows := RankRows(winners);
      forall i | 0 <= i < |rows| ensures DecimalValue(rows[i][0]) == |winners| - i {
        DecimalRoundTrip(|winners| - i);
      }
    }
  }

  // ---------------------------------------------------------------------
  // The tab's state (components/LuckyDrawSection.tsx:10-75)

  /** The draw tab. The participant list is fixed while the tab is shown (the
      application shows one tab at a time, so a change of list remounts it).
      `candidateList` is kept equal to the derived pool, as the effect that
      recomputes it on every change does. A draw runs in two steps: starting
      it captures the candidate list, and the timer callback later picks the
      winner from that captured list. */
  class LuckyDrawSection {
    const participants: seq<Participant>
    var winners: seq<Participant>
    var allowRepeats: bool
    var candidateList: seq<Participant>
    var isDrawing: bool
    /** The candidate list captured by the pending timer callback. */
    var drawPool: seq<Participant>
    /** Whether the captured list left out every winner's id when it was captured. */
    ghost var drawExcludesWinners: bool

    ghost predicate Valid()
      reads this
    {
      candidateList == Pool(participants, winners, allowRepeats) &&
      (forall w :: w in winners ==> w in participants) &&
      (isDrawing ==> |drawPool| > 0 && forall p :: p in drawPool ==> p in participants) &&
      (isDrawing && drawExcludesWinners ==> forall p :: p in drawPool ==> p.id !in Ids(winners))
    }

    /** Mounting the tab: no winners, repeats off, every participant a candidate. */
    constructor (ps: seq<Participant>)
      ensures Valid()
      ensures participants == ps && winners == [] && !allowRepeats && !isDrawing
      ensures candidateList == ps
    {
      participants := ps;
      winners := [];
      allowRepeats := false;
      isDrawing := false;
      drawPool := [];
      drawExcludesWinners := false;
      candidateList := ExcludeIds(ps, {});
      ExcludeNothing(ps);
    }

    /** Flipping the repeat switch recomputes the pool. The switch is not
        disabled while a draw is running. */
    method ToggleRepeats()
      requires Valid()
      modifies this
      ensures Valid()
      ensures allowRepeats == !old(allowRepeats)
      ensures candidateList == Pool(participants, winners, allowRepeats)
      ensures winners == old(winners) && isDrawing == old(isDrawing) && drawPool == old(drawPool)
    {
      allowRepeats := !allowRepeats;
      candidateList := Pool(participants, winners, allowRepeats);
    }

    /** Starting a draw. With no candidates nothing changes and a warning is
        shown (`started` is false). Otherwise the draw is marked running and
        the current candidate list is captured for the timer callback. The
        start button is disabled while a draw runs; hence the precondition. */
    method StartDraw() returns (started: bool)
      requires Valid() && !isDrawing
      modifies this
      ensures Valid()
      ensures started <==> old(candidateList) != []
      ensures !started ==> !isDrawing && drawPool == old(drawPool)
      ensures started ==> isDrawing && drawPool == old(candidateList)
      ensures started ==> drawExcludesWinners == !allowRepeats
      ensures winners == old(winners) && allowRepeats == old(allowRepeats)
      ensures candidateList == old(candidateList)
    {
      if candidateList == [] {
        started := false;
        return;
      }
      PoolContents(participants, winners, allowRepeats);
      started := true;
      isDrawing := true;
      drawPool := candidateList;
      drawExcludesWinners := !allowRepeats;
    }

    /** The timer callback: `idx` stands for the random index into the
        captured list. The winner goes to the front of the winners, the rest
        of which is unchanged, and the pool is recomputed. */
    method FinishDraw(idx: nat)
      requires Valid() && isDrawing && idx < |drawPool|
      modifies this
      ensures Valid()
      ensures winners == [old(drawPool)[idx]] + old(winners)
      ensures |winners| == |old(winners)| + 1 && winners[0] in participants
      ensures !isDrawing && allowRepeats == old(allowRepeats)
      ensures candidateList == Pool(participants, winners, allowRepeats)
      ensures old(drawExcludesWinners) && DistinctIds(old(winners)) ==> DistinctIds(winners)
    {
      var winner := drawPool[idx];
      ghost var prev := winners;
      winners := [winner] + winners;
      isDrawing := false;
      candidateList := Pool(participants, winners, allowRepeats);
      if drawExcludesWinners && DistinctIds(prev) {
        assert winner in drawPool;
        InIds(prev, winner.id);
        forall i, j | 0 <= i < j < |winners| ensures winners[i].id != winners[j].id {
          assert winners[j] == prev[j - 1];
          if i > 0 {
            assert winners[i] == prev[i - 1];
          }
        }
      }
    }

    /** Resetting the winners; `confirmed` is the user's answer to the
        confirmation dialog. The reset button is not disabled while a draw
        runs, so a pending draw then lands on the emptied list. */
    method ResetDraw(confirmed: bool)
      requires Valid()
      modifies this
      ensures Valid()
      ensures confirmed ==> winners == []
      ensures !confirmed ==> winners == old(winners)
      ensures candidateList == Pool(participants, winners, allowRepeats)
      ensures allowRepeats == old(allowRepeats) && isDrawing == old(isDrawing) && drawPool == old(drawPool)
    {
      if confirmed {
        winners := [];
        candidateList := Pool(participants, winners, allowRepeats);
      }
    }
  }
}
