/** pgn_analyze.py: Lichess-style centipawn-loss accounting for one game, and
    the line layout of the evaluation bar. The engine's score after each ply
    arrives as a parameter (the centipawn value python-chess reports from
    White's point of view, mates already mapped, or None); reading the PGN,
    driving Stockfish, the grey shade of each block and the report table are
    not modelled. */
module PgnAnalyze {
  import opened Wrappers
  import opened Seqs

  const StartCpWhite := 15
  const EvalCapCp := 1000
  const InaccuracyThreshold := 50
  const MistakeThreshold := 100
  const BlunderThreshold := 300

  // ----- clamp and score_to_capped_cp -----

  function Max(a: int, b: int): int {
    if a >= b then a else b
  }

  function Min(a: int, b: int): int {
    if a <= b then a else b
  }

  /** clamp(x, lo, hi) = max(lo, min(hi, x)) */
  function Clamp(x: int, lo: int, hi: int): (r: int)
    ensures lo <= hi ==> lo <= r <= hi
    ensures lo <= x <= hi ==> r == x
    ensures lo <= hi && x < lo ==> r == lo
    ensures lo <= hi && hi < x ==> r == hi
    ensures hi < lo ==> r == lo
  {
    Max(lo, Min(hi, x))
  }

  /** Clamping twice is clamping once. */
  lemma {:induction false} ClampIdempotent(x: int, lo: int, hi: int)
    requires lo <= hi
    ensures Clamp(Clamp(x, lo, hi), lo, hi) == Clamp(x, lo, hi)
  {
    var r := Clamp(x, lo, hi);
    assert lo <= r <= hi;
  }

  /** score_to_capped_cp, given the engine's raw value. */
  function ScoreToCappedCp(raw: Option<int>): (cp: int)
    ensures -EvalCapCp <= cp <= EvalCapCp
    ensures raw.None? ==> cp == 0
    ensures raw.Some? && -EvalCapCp <= raw.value <= EvalCapCp ==> cp == raw.value
    ensures raw.Some? && raw.value > EvalCapCp ==> cp == EvalCapCp
    ensures raw.Some? && raw.value < -EvalCapCp ==> cp == -EvalCapCp
  {
    match raw
    case None => 0
    case Some(v) => Clamp(v, -EvalCapCp, EvalCapCp)
  }

  // ----- one ply -----

  datatype Color = White | Black

  function Opponent(c: Color): Color {
    if c == White then Black else White
  }

  /** The side to move before ply i: board.push flips the turn every ply. */
  function Mover(first: Color, i: nat): Color {
    if i % 2 == 0 then first else Opponent(first)
  }

  /** An evaluation seen from one side: Black's is the negation of White's. */
  function Pov(c: Color, whiteCp: int): int {
    if c == White then whiteCp else -whiteCp
  }

  /** The loss of the side that moved, computed on White's evaluations. */
  function Loss(mover: Color, prevWhiteCp: int, newWhiteCp: int): nat {
    if mover == White then Max(0, prevWhiteCp - newWhiteCp) else Max(0, newWhiteCp - prevWhiteCp)
  }

  /** It is how far the mover's own evaluation fell, and nothing when it did
      not fall. */
  lemma {:induction false} LossIsOwnDrop(mover: Color, prevWhiteCp: int, newWhiteCp: int)
    ensures Loss(mover, prevWhiteCp, newWhiteCp) == Max(0, Pov(mover, prevWhiteCp) - Pov(mover, newWhiteCp))
    ensures Loss(mover, prevWhiteCp, newWhiteCp) > 0 <==> Pov(mover, newWhiteCp) < Pov(mover, prevWhiteCp)
  {
    if mover == Black {
      assert -prevWhiteCp - -newWhiteCp == newWhiteCp - prevWhiteCp;
    }
  }

  /** Between capped evaluations, a ply loses at most twice the cap. */
  lemma {:induction false} LossBounded(mover: Color, prev: int, next: int)
    requires -EvalCapCp <= prev <= EvalCapCp && -EvalCapCp <= next <= EvalCapCp
    ensures Loss(mover, prev, next) <= 2 * EvalCapCp
  {
    LossIsOwnDrop(mover, prev, next);
    assert Pov(mover, prev) - Pov(mover, next) <= 2 * EvalCapCp;
  }

  /** The counters of one side. */
  datatype Stats = Stats(cplTotal: nat, moves: nat, inaccuracies: nat, mistakes: nat, blunders: nat)

  const NoStats := Stats(0, 0, 0, 0, 0)

  /** The number of flagged moves. */
  function Flagged(s: Stats): nat {
    s.inaccuracies + s.mistakes + s.blunders
  }

  /** The least loss the flags of a side account for. */
  function FlaggedLoss(s: Stats): nat {
    InaccuracyThreshold * s.inaccuracies + MistakeThreshold * s.mistakes + BlunderThreshold * s.blunders
  }

  /** The mover's counters after a ply: the loss added to the total, one
      more move, and the flag of the highest threshold the loss reaches. */
  function Record(s: Stats, loss: nat): Stats {
    var s' := s.(cplTotal := s.cplTotal + loss, moves := s.moves + 1);
    if loss >= BlunderThreshold then s'.(blunders := s'.blunders + 1)
    else if loss >= MistakeThreshold then s'.(mistakes := s'.mistakes + 1)
    else if loss >= InaccuracyThreshold then s'.(inaccuracies := s'.inaccuracies + 1)
    else s'
  }

  /** A ply flags at most one counter: none under 50, and otherwise exactly
      the one for the band the loss falls in. */
  lemma {:induction false} AtMostOneFlag(s: Stats, loss: nat)
    ensures var r := Record(s, loss);
      r.moves == s.moves + 1 && r.cplTotal == s.cplTotal + loss
      && Flagged(r) == Flagged(s) + (if loss >= InaccuracyThreshold then 1 else 0)
      && r.blunders == s.blunders + (if loss >= BlunderThreshold then 1 else 0)
      && r.mistakes == s.mistakes + (if MistakeThreshold <= loss < BlunderThreshold then 1 else 0)
      && r.inaccuracies == s.inaccuracies + (if InaccuracyThreshold <= loss < MistakeThreshold then 1 else 0)
  {
  }

  // ----- the game -----

  /** The capped evaluation after ply i. */
  function EvalAfter(scores: seq<Option<int>>, i: nat): int
    requires i < |scores|
  {
    ScoreToCappedCp(scores[i])
  }

  /** The evaluation before ply i: +15 before the first. */
  function EvalBefore(scores: seq<Option<int>>, i: nat): int
    requires i <= |scores|
  {
    if i == 0 then StartCpWhite else EvalAfter(scores, i - 1)
  }

  function PlyLoss(first: Color, scores: seq<Option<int>>, i: nat): nat
    requires i < |scores|
  {
    Loss(Mover(first, i), EvalBefore(scores, i), EvalAfter(scores, i))
  }

  /** The counters of side c after the first n plies. */
  function SideStats(first: Color, scores: seq<Option<int>>, n: nat, c: Color): Stats
    requires n <= |scores|
  {
    if n == 0 then NoStats
    else
      var s := SideStats(first, scores, n - 1, c);
      if Mover(first, n - 1) == c then Record(s, PlyLoss(first, scores, n - 1)) else s
  }

  /** The evaluations after each of the first n plies. */
  function Evals(scores: seq<Option<int>>, n: nat): (evals: seq<int>)
    requires n <= |scores|
    ensures |evals| == n
    ensures forall i :: 0 <= i < n ==> evals[i] == EvalAfter(scores, i)
  {
    if n == 0 then [] else Evals(scores, n - 1) + [EvalAfter(scores, n - 1)]
  }

  /** The ply loop of analyze_game, from the side to move at the start and
      the engine's score after each ply. `stats` maps each side to its
      counters; `evals` is None unless collectEvals. */
  method AnalyzePlies(first: Color, scores: seq<Option<int>>, collectEvals: bool)
    returns (stats: map<Color, Stats>, evals: Option<seq<int>>)
    ensures stats == map[White := SideStats(first, scores, |scores|, White), Black := SideStats(first, scores, |scores|, Black)]
    ensures evals == if collectEvals then Some(Evals(scores, |scores|)) else None
  {
    evals := if collectEvals then Some([]) else None;
    stats := map[White := NoStats, Black := NoStats];
    var prevEvalWhiteCp := StartCpWhite;
    var mover := first;
    for i := 0 to |scores|
      invariant mover == Mover(first, i)
      invariant prevEvalWhiteCp == EvalBefore(scores, i)
      invariant stats.Keys == {White, Black}
      invariant stats[White] == SideStats(first, scores, i, White) && stats[Black] == SideStats(first, scores, i, Black)
      invariant evals == if collectEvals then Some(Evals(scores, i)) else None
    {
      var evalWhiteCp := ScoreToCappedCp(scores[i]);
      if evals.Some? {
        evals := Some(evals.value + [evalWhiteCp]);
      }
      var loss := Loss(mover, prevEvalWhiteCp, evalWhiteCp);
      SideStatsStep(first, scores, i);
      stats := stats[mover := Record(stats[mover], loss)];
      prevEvalWhiteCp := evalWhiteCp;
      mover := Opponent(mover);
    }
    assert stats == map[White := stats[White], Black := stats[Black]];
  }

  /** One ply changes the counters of the side that moved and no other, and
      hands the move to the opponent. */
  lemma {:induction false} SideStatsStep(first: Color, scores: seq<Option<int>>, i: nat)
    requires i < |scores|
    ensures var m := Mover(first, i);
      SideStats(first, scores, i + 1, m) == Record(SideStats(first, scores, i, m), PlyLoss(first, scores, i))
      && SideStats(first, scores, i + 1, Opponent(m)) == SideStats(first, scores, i, Opponent(m))
      && Mover(first, i + 1) == Opponent(m)
  {
    MoverStep(first, i);
  }

  lemma {:induction false} MoverStep(first: Color, i: nat)
    ensures Mover(first, i + 1) == Opponent(Mover(first, i)) != Mover(first, i)
  {
    if i % 2 == 0 {
      assert (i + 1) % 2 == 1;
    } else {
      assert (i + 1) % 2 == 0;
      assert Opponent(Opponent(first)) == first;
    }
  }

  // ----- properties of the accounting -----

  /** The two sides share the plies: their move counts add up to the number
      of plies, and alternate from the side that moved first. */
  lemma {:induction false} MovesAlternate(first: Color, scores: seq<Option<int>>, n: nat)
    requires n <= |scores|
    ensures SideStats(first, scores, n, first).moves == (n + 1) / 2
    ensures SideStats(first, scores, n, Opponent(first)).moves == n / 2
  {
    if n > 0 {
      MovesAlternate(first, scores, n - 1);
    }
  }

  /** A side is flagged at most once per move. */
  lemma {:induction false} FlagsAtMostMoves(first: Color, scores: seq<Option<int>>, n: nat, c: Color)
    requires n <= |scores|
    ensures Flagged(SideStats(first, scores, n, c)) <= SideStats(first, scores, n, c).moves
  {
    if n > 0 {
      FlagsAtMostMoves(first, scores, n - 1, c);
    }
  }

  /** Each flag stands for at least its threshold of loss. */
  lemma {:induction false} FlagsAccountForLoss(first: Color, scores: seq<Option<int>>, n: nat, c: Color)
    requires n <= |scores|
    ensures FlaggedLoss(SideStats(first, scores, n, c)) <= SideStats(first, scores, n, c).cplTotal
  {
    if n > 0 {
      FlagsAccountForLoss(first, scores, n - 1, c);
      if Mover(first, n - 1) == c {
        var s := SideStats(first, scores, n - 1, c);
        RecordFlaggedLoss(s, PlyLoss(first, scores, n - 1));
      }
    }
  }

  lemma {:induction false} RecordFlaggedLoss(s: Stats, loss: nat)
    requires FlaggedLoss(s) <= s.cplTotal
    ensures FlaggedLoss(Record(s, loss)) <= Record(s, loss).cplTotal
  {
    var r := Record(s, loss);
    if loss >= BlunderThreshold {
      assert FlaggedLoss(r) == FlaggedLoss(s) + BlunderThreshold;
    } else if loss >= MistakeThreshold {
      assert FlaggedLoss(r) == FlaggedLoss(s) + MistakeThreshold;
    } else if loss >= InaccuracyThreshold {
      assert FlaggedLoss(r) == FlaggedLoss(s) + InaccuracyThreshold;
    } else {
      assert r == s.(cplTotal := s.cplTotal + loss, moves := s.moves + 1);
    }
  }

  /** A move loses at most twice the cap, 2000 centipawns. */
  lemma {:induction false} TotalAtMostTwiceCapPerMove(first: Color, scores: seq<Option<int>>, n: nat, c: Color)
    requires n <= |scores|
    ensures SideStats(first, scores, n, c).cplTotal <= 2000 * SideStats(first, scores, n, c).moves
  {
    if n > 0 {
      TotalAtMostTwiceCapPerMove(first, scores, n - 1, c);
      if Mover(first, n - 1) == c {
        var s := SideStats(first, scores, n - 1, c);
        LossBounded(Mover(first, n - 1), EvalBefore(scores, n - 1), EvalAfter(scores, n - 1));
        assert 2000 * (s.moves + 1) == 2000 * s.moves + 2000;
      }
    }
  }

  /** A side's total is the sum of the losses on its own moves. */
  function LossSum(first: Color, scores: seq<Option<int>>, n: nat, c: Color): nat
    requires n <= |scores|
  {
    if n == 0 then 0
    else LossSum(first, scores, n - 1, c) + (if Mover(first, n - 1) == c then PlyLoss(first, scores, n - 1) else 0)
  }

  lemma {:induction false} TotalIsSumOfOwnLosses(first: Color, scores: seq<Option<int>>, n: nat, c: Color)
    requires n <= |scores|
    ensures SideStats(first, scores, n, c).cplTotal == LossSum(first, scores, n, c)
  {
    if n > 0 {
      TotalIsSumOfOwnLosses(first, scores, n - 1, c);
    }
  }

  /** A game where no evaluation moves against the side that played keeps
      every counter but the move count at zero. */
  lemma {:induction false} PerfectPlayHasNoLoss(first: Color, scores: seq<Option<int>>, n: nat, c: Color)
    requires n <= |scores|
    requires forall i :: 0 <= i < n ==> PlyLoss(first, scores, i) == 0
    ensures SideStats(first, scores, n, c) == NoStats.(moves := SideStats(first, scores, n, c).moves)
  {
    if n > 0 {
      PerfectPlayHasNoLoss(first, scores, n - 1, c);
      assert PlyLoss(first, scores, n - 1) == 0;
    }
  }

  // ----- print_eval_bar -----

  /** usable_width: the requested wrap width when one is given and non-zero,
      else the console width less two; never under 10. */
  function UsableWidth(wrapWidth: Option<int>, consoleWidth: int): (w: nat)
    ensures w >= 10
    ensures wrapWidth.Some? && wrapWidth.value != 0 ==> w == Max(10, wrapWidth.value)
    ensures wrapWidth.None? || wrapWidth.value == 0 ==> w == Max(10, consoleWidth - 2)
  {
    if wrapWidth.Some? && wrapWidth.value != 0 then Max(10, wrapWidth.value) else Max(10, consoleWidth - 2)
  }

  /** The bar's lines, one block per evaluation (a block is shown here by
      the evaluation it shades): a line closes after every `width`-th block,
      and a last partial line is kept. Nothing is printed for no
      evaluations. */
  method EvalBarLines(evals: seq<int>, width: nat) returns (lines: seq<seq<int>>)
    requires width >= 10
    ensures Flatten(lines) == evals
    ensures forall k :: 0 <= k < |lines| - 1 ==> |lines[k]| == width
    ensures lines != [] ==> 0 < |lines[|lines| - 1]| <= width
    ensures evals == [] <==> lines == []
  {
    lines := [];
    if evals == [] {
      return;
    }
    var cur: seq<int> := [];
    for i := 1 to |evals| + 1
      invariant Flatten(lines) + cur == evals[..i - 1]
      invariant forall k :: 0 <= k < |lines| ==> |lines[k]| == width
      invariant |cur| < width
      invariant |cur| == (i - 1) % width
    {
      ModStep(i, width);
      cur := cur + [evals[i - 1]];
      assert evals[..i] == evals[..i - 1] + [evals[i - 1]];
      if i % width == 0 {
        FlattenSnoc(lines, cur);
        lines := lines + [cur];
        cur := [];
      }
    }
    if |cur| > 0 {
      FlattenSnoc(lines, cur);
      lines := lines + [cur];
    }
    assert evals[..|evals|] == evals;
  }

  /** Counting one further: the remainder goes up by one, or wraps to zero
      exactly when it reached width - 1. */
  lemma {:induction false} ModStep(i: nat, w: nat)
    requires w > 0 && i > 0
    ensures i % w == 0 <==> (i - 1) % w == w - 1
    ensures i % w != 0 ==> i % w == (i - 1) % w + 1
  {
    var q, r := (i - 1) / w, (i - 1) % w;
    assert i - 1 == q * w + r && 0 <= r < w;
    if r == w - 1 {
      assert i == (q + 1) * w;
      ModOf(i, w, q + 1, 0);
    } else {
      ModOf(i, w, q, r + 1);
    }
  }

  /** The remainder is the r of any n == q * w + r with 0 <= r < w. */
  lemma {:induction false} ModOf(n: nat, w: nat, q: int, r: int)
    requires w > 0 && n == q * w + r && 0 <= r < w
    ensures n % w == r
  {
    var q', r' := n / w, n % w;
    assert n == q' * w + r' && 0 <= r' < w;
    if q' < q {
      ScaleMonotone(q' + 1, q, w);
    } else if q' > q {
      ScaleMonotone(q + 1, q', w);
    }
  }

  lemma {:induction false} ScaleMonotone(a: int, b: int, w: nat)
    requires a <= b
    ensures a * w <= b * w
  {
    var d := b - a;
    assert b * w == a * w + d * w;
  }
}
