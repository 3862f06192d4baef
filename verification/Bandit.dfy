/** The LinUCB bandit over the action classes: updates, scores, selection and warm start. */
module Bandit {
  import opened Options
  import opened Scalars
  import opened Vectors
  import opened Ridge

  type Arm = string

  const ARMS: seq<Arm> := [
    "notify", "collect_data", "create_ticket", "quarantine_recommend", "disable_account_recommend",
    "isolate_host_recommend", "block_ioc_recommend", "ignore", "enrich", "escalate"]

  ghost function ArmSet(): set<Arm> {
    set arm | arm in ARMS
  }

  const OBJECTIVES: seq<string> := [
    "ransomware", "credential_access", "lateral_movement", "phishing", "c2_beacon", "recon", "benign"]

  const FEATURE_DIM: nat := 10
  const ALPHA: real := 0.6

  /** Bias, risk, criticality and a one-hot objective; an unknown objective leaves the last part zero. */
  function BuildContext(riskScore: real, assetCriticality: real, objective: string): (x: Vector)
    ensures |x| == FEATURE_DIM == 3 + |OBJECTIVES|
    ensures x[0] == 1.0 && x[1] == riskScore && x[2] == assetCriticality
    ensures forall i | 0 <= i < |OBJECTIVES| :: x[3 + i] == if OBJECTIVES[i] == objective then 1.0 else 0.0
  {
    [1.0, riskScore, assetCriticality]
    + seq(|OBJECTIVES|, i requires 0 <= i < |OBJECTIVES| => if OBJECTIVES[i] == objective then 1.0 else 0.0)
  }

  /** Two situations look the same to the bandit exactly when risk, criticality and known objective agree. */
  lemma ContextsEqualIff(risk: real, criticality: real, objective: string, risk': real, criticality': real, objective': string)
    ensures BuildContext(risk, criticality, objective) == BuildContext(risk', criticality', objective')
      <==> risk == risk' && criticality == criticality'
           && (objective == objective' || (objective !in OBJECTIVES && objective' !in OBJECTIVES))
  {
    hide BuildContext, OBJECTIVES;
    var x, y := BuildContext(risk, criticality, objective), BuildContext(risk', criticality', objective');
    if x == y {
      assert forall i | 0 <= i < |OBJECTIVES| :: OBJECTIVES[i] == objective <==> OBJECTIVES[i] == objective';
    } else if risk == risk' && criticality == criticality' {
      var k :| 0 <= k < |x| && x[k] != y[k];
      assert OBJECTIVES[k - 3] in OBJECTIVES;
    }
  }

  datatype Pull = Pull(arm: Arm, sample: Sample)

  /** The samples of one arm, in order. */
  ghost function Of(h: seq<Pull>, arm: Arm): seq<Sample> {
    if h == [] then []
    else Of(h[..|h| - 1], arm) + if h[|h| - 1].arm == arm then [h[|h| - 1].sample] else []
  }

  ghost predicate PullsFit(h: seq<Pull>, n: nat) {
    forall p | p in h :: |p.sample.x| == n
  }

  lemma {:induction false} OfFits(h: seq<Pull>, arm: Arm, n: nat)
    requires PullsFit(h, n)
    ensures Fits(Of(h, arm), n)
  {
    if h != [] {
      OfFits(h[..|h| - 1], arm, n);
    }
  }

  lemma OfOneMore(h: seq<Pull>, p: Pull, arm: Arm)
    ensures Of(h + [p], arm) == Of(h, arm) + if p.arm == arm then [p.sample] else []
  {
    assert (h + [p])[..|h|] == h;
  }

  lemma OneMoreSample(n: nat, h: seq<Sample>, s: Sample)
    requires Fits(h, n) && |s.x| == n
    ensures Fits(h + [s], n)
    ensures Design(n, h + [s]) == AddOuter(Design(n, h), s.x)
    ensures Response(n, h + [s]) == Add(Response(n, h), Scale(s.r, s.x))
  {
    assert (h + [s])[..|h|] == h;
  }

  /** What one arm's matrix, vector and count are, in terms of the whole history. */
  ghost predicate ArmHolds(n: nat, h: seq<Pull>, arm: Arm, m: Matrix, v: Vector, count: int) {
    && Fits(Of(h, arm), n)
    && m == Design(n, Of(h, arm))
    && v == Response(n, Of(h, arm))
    && count == |Of(h, arm)|
  }

  lemma ArmUpdated(n: nat, h: seq<Pull>, arm: Arm, m: Matrix, v: Vector, count: int, s: Sample)
    requires ArmHolds(n, h, arm, m, v, count) && |s.x| == n
    ensures IsSquare(m, n) && |v| == n
    ensures ArmHolds(n, h + [Pull(arm, s)], arm, AddOuter(m, s.x), Add(v, Scale(s.r, s.x)), count + 1)
  {
    OneMoreSample(n, Of(h, arm), s);
    OfOneMore(h, Pull(arm, s), arm);
  }

  lemma ArmUntouched(n: nat, h: seq<Pull>, arm: Arm, m: Matrix, v: Vector, count: int, p: Pull)
    requires ArmHolds(n, h, arm, m, v, count) && p.arm != arm
    ensures ArmHolds(n, h + [p], arm, m, v, count)
  {
    OfOneMore(h, p, arm);
    assert Of(h, arm) + [] == Of(h, arm);
  }

  function WithOuter(A: map<Arm, Matrix>, arm: Arm, x: Vector): map<Arm, Matrix>
    requires arm in A && IsSquare(A[arm], |x|)
  {
    A[arm := AddOuter(A[arm], x)]
  }

  function WithReward(b: map<Arm, Vector>, arm: Arm, x: Vector, reward: real): map<Arm, Vector>
    requires arm in b && |b[arm]| == |x|
  {
    b[arm := Add(b[arm], Scale(reward, x))]
  }

  /** Every arm's part of the state, for the same history. */
  ghost predicate AllHold(n: nat, h: seq<Pull>, A: map<Arm, Matrix>, b: map<Arm, Vector>, pulls: map<Arm, int>) {
    && A.Keys == b.Keys == pulls.Keys
    && forall arm | arm in A :: ArmHolds(n, h, arm, A[arm], b[arm], pulls[arm])
  }

  lemma AllUpdated(n: nat, h: seq<Pull>, A: map<Arm, Matrix>, b: map<Arm, Vector>, pulls: map<Arm, int>,
                   arm: Arm, s: Sample)
    requires PullsFit(h, n) && AllHold(n, h, A, b, pulls) && arm in A && |s.x| == n
    ensures PullsFit(h + [Pull(arm, s)], n)
    ensures IsSquare(A[arm], n) && arm in b && |b[arm]| == n
    ensures WithOuter(A, arm, s.x).Keys == A.Keys && arm in pulls
    ensures AllHold(n, h + [Pull(arm, s)], WithOuter(A, arm, s.x), WithReward(b, arm, s.x, s.r),
                    pulls[arm := pulls[arm] + 1])
  {
    hide ArmHolds, AddOuter, Add, Scale, IsSquare, Of, PullsFit;
    ArmUpdated(n, h, arm, A[arm], b[arm], pulls[arm], s);
    PullsFitOneMore(n, h, Pull(arm, s));
    forall a | a in A && a != arm ensures ArmHolds(n, h + [Pull(arm, s)], a, A[a], b[a], pulls[a]) {
      ArmUntouched(n, h, a, A[a], b[a], pulls[a], Pull(arm, s));
    }
  }

  lemma PullsFitOneMore(n: nat, h: seq<Pull>, p: Pull)
    requires PullsFit(h, n) && |p.sample.x| == n
    ensures PullsFit(h + [p], n)
  {
  }

  class LinUCB {
    const dim: nat
    const alpha: real
    var A: map<Arm, Matrix>
    var b: map<Arm, Vector>
    var pulls: map<Arm, int>
    /** Every update made so far. */
    ghost var history: seq<Pull>

    ghost predicate Valid()
      reads this
      ensures Valid() ==> A.Keys == ArmSet()
    {
      && PullsFit(history, dim)
      && A.Keys == ArmSet()
      && AllHold(dim, history, A, b, pulls)
    }

    constructor (dim: nat := FEATURE_DIM, alpha: real := ALPHA)
      ensures Valid() && history == []
      ensures this.dim == dim && this.alpha == alpha
    {
      this.dim, this.alpha := dim, alpha;
      A := map arm | arm in ARMS :: Identity(dim);
      b := map arm | arm in ARMS :: Zeros(dim);
      pulls := map arm | arm in ARMS :: 0;
      history := [];
    }

    /** Adds `x xᵀ` and `reward x` to the arm's matrix and vector; no other arm changes. */
    method Update(arm: Arm, x: Vector, reward: real)
      requires Valid() && arm in A && |x| == dim
      modifies this
      ensures Valid()
      ensures history == old(history) + [Pull(arm, Sample(x, reward))]
      ensures old(IsSquare(A[arm], |x|) && arm in b && |b[arm]| == |x| && arm in pulls)
      ensures A == WithOuter(old(A), arm, x)
      ensures b == WithReward(old(b), arm, x, reward)
      ensures pulls == old(pulls)[arm := old(pulls)[arm] + 1]
    {
      hide AllHold, WithOuter, WithReward, ArmSet, IsSquare, PullsFit;
      AllUpdated(dim, history, A, b, pulls, arm, Sample(x, reward));
      A, b, pulls, history :=
        WithOuter(A, arm, x),
        WithReward(b, arm, x, reward),
        pulls[arm := pulls[arm] + 1],
        history + [Pull(arm, Sample(x, reward))];
    }

    /** The one solution of `A y = v`. */
    ghost function SolveFor(arm: Arm, v: Vector): (y: Vector)
      requires Valid() && arm in A && |v| == dim
      reads this
      ensures |y| == dim && MatVec(A[arm], y) == v
      ensures forall z | |z| == dim && MatVec(A[arm], z) == v :: z == y
    {
      var h := Of(history, arm);
      var y := Solve(dim, h, v);
      assert forall z | |z| == dim && MatVec(A[arm], z) == v :: z == y by {
        forall z | |z| == dim && MatVec(A[arm], z) == v ensures z == y {
          SolvesIff(dim, h, v, z);
        }
      }
      y
    }

    /** The ridge weights of an arm. */
    ghost function ThetaOf(arm: Arm): (y: Vector)
      requires Valid() && arm in A
      reads this
      ensures |y| == dim && MatVec(A[arm], y) == b[arm]
      ensures forall w: Vector | |w| == dim :: Loss(Of(history, arm), y) <= Loss(Of(history, arm), w)
    {
      var h := Of(history, arm);
      assert forall w: Vector | |w| == dim :: Loss(h, Theta(dim, h)) <= Loss(h, w) by {
        forall w: Vector | |w| == dim ensures Loss(h, Theta(dim, h)) <= Loss(h, w) {
          ThetaMinimises(dim, h, w);
        }
      }
      SolveFor(arm, b[arm])
    }

    /** The mean reward predicted for `x`, plus `alpha √(xᵀ A⁻¹ x)` when exploring. */
    ghost function Score(arm: Arm, x: Vector, explore: bool, root: real -> real): real
      requires Valid() && arm in A && |x| == dim
      reads this
    {
      var mean := Dot(ThetaOf(arm), x);
      if explore then mean + Mul(alpha, root(Dot(x, SolveFor(arm, x)))) else mean
    }

    /** `scores` in `select`. */
    ghost function Scores(arms: seq<Arm>, x: Vector, explore: bool, root: real -> real): map<Arm, real>
      requires Valid() && |x| == dim && forall a | a in arms :: a in A
      reads this
    {
      map a | a in arms :: Score(a, x, explore, root)
    }

    /** The first candidate of the highest score. */
    ghost function Selected(x: Vector, allowed: Option<seq<Arm>>, explore: bool, root: real -> real): (arm: Arm)
      requires Valid() && |x| == dim && forall a | a in Candidates(allowed) :: a in A
      reads this
      ensures arm in Candidates(allowed) && arm in A
    {
      var score := Looked(Scores(Candidates(allowed), x, explore, root));
      BestIsAmong(Candidates(allowed), score);
      Select(allowed, score)
    }
  }

  /** `scores.get`. */
  function Looked(scores: map<Arm, real>): Arm -> real {
    a => if a in scores then scores[a] else 0.0
  }

  lemma {:induction false} BestIsAmong(arms: seq<Arm>, score: Arm -> real)
    requires arms != []
    ensures Best(arms, score) in arms
  {
    if |arms| > 1 {
      BestIsAmong(arms[..|arms| - 1], score);
    }
  }

  /** No candidate has a higher score than the selected arm, and every one before it a lower one. */
  lemma SelectedIsFirstBest(bandit: LinUCB, x: Vector, allowed: Option<seq<Arm>>, explore: bool, root: real -> real)
    returns (k: nat)
    requires bandit.Valid() && |x| == bandit.dim && forall a | a in Candidates(allowed) :: a in bandit.A
    ensures k < |Candidates(allowed)| && Candidates(allowed)[k] == bandit.Selected(x, allowed, explore, root)
    ensures forall a | a in Candidates(allowed) ::
      bandit.Score(a, x, explore, root) <= bandit.Score(Candidates(allowed)[k], x, explore, root)
    ensures forall i | 0 <= i < k ::
      bandit.Score(Candidates(allowed)[i], x, explore, root) < bandit.Score(Candidates(allowed)[k], x, explore, root)
  {
    hide LinUCB.Valid, LinUCB.Score, Candidates, Best;
    var arms := Candidates(allowed);
    var score := Looked(bandit.Scores(arms, x, explore, root));
    k := BestIsFirstMaximum(arms, score);
    assert forall a | a in arms :: score(a) == bandit.Score(a, x, explore, root);
    assert forall i | 0 <= i < |arms| :: arms[i] in arms;
  }

  /** The real square root, as far as the scores need it. */
  ghost predicate IsRoot(root: real -> real) {
    forall v | v >= 0.0 :: root(v) >= 0.0 && Mul(root(v), root(v)) == v
  }

  lemma RootsBelowOne(s: real, t: real)
    requires s >= 0.0 && t >= 0.0 && Mul(Mul(t, t), Mul(s, s)) <= 1.0
    ensures Mul(s, t) <= 1.0
  {
    var p := Mul(s, t);
    assert Mul(Mul(t, t), Mul(s, s)) == Mul(p, p) by {
      hide Mul;
      MulAssociates(t, t, Mul(s, s));
      MulAssociates(t, s, s);
      MulCommutes(t, s);
      MulCommutes(Mul(t, s), s);
      MulAssociates(s, t, p);
      MulAssociates(t, s, p);
      MulCommutes(s, p);
      MulAssociates(s, t, s);
      MulCommutes(t, Mul(s, p));
      MulAssociates(s, p, t);
      MulCommutes(p, t);
    }
    hide Mul;
    if p > 1.0 {
      MulSign(p - 1.0, p - 1.0);
      DifferenceSquared(p, 1.0);
      MulUnit(p);
      MulUnit(1.0);
      MulCommutes(p, 1.0);
      MulAdd(1.0, 1.0, p);
    }
  }

  /**
   After `k` updates of an arm at context `x`, whatever else was pulled in
   between, the exploration bonus at `x` is at most `alpha / √k`.
   */
  lemma BonusAfterRepeats(n: nat, h: seq<Pull>, arm: Arm, x: Vector, alpha: real, root: real -> real)
    requires PullsFit(h, n) && |x| == n && IsRoot(root) && alpha >= 0.0
    ensures Fits(Of(h, arm), n)
    ensures var k := Times(Of(h, arm), x) as real;
      Mul(Mul(alpha, root(Width(n, Of(h, arm), x))), root(k)) <= alpha
  {
    OfFits(h, arm, n);
    var samples := Of(h, arm);
    var k, w := Times(samples, x) as real, Width(n, samples, x);
    hide Mul, Dot, Solve, Of, Times, Design, MatVec;
    WidthNonNegative(n, samples, x, Solve(n, samples, x));
    WidthAfterRepeats(n, samples, x);
    RootsBelowOne(root(w), root(k));
    BonusBound(alpha, root(w), root(k));
  }

  lemma BonusBound(alpha: real, s: real, t: real)
    requires alpha >= 0.0 && Mul(s, t) <= 1.0
    ensures Mul(Mul(alpha, s), t) <= alpha
  {
    hide Mul;
    MulAssociates(alpha, s, t);
    MulSign(alpha, 1.0 - Mul(s, t));
    MulAdd(1.0, -Mul(s, t), alpha);
    MulMinus(alpha, Mul(s, t));
    MulUnit(alpha);
    MulCommutes(alpha, 1.0);
  }

  lemma RootMonotone(root: real -> real, v: real, w: real)
    requires IsRoot(root) && 0.0 <= v <= w
    ensures 0.0 <= root(v) <= root(w)
  {
    hide Mul;
    var s, t := root(v), root(w);
    if s > t {
      MulSign(s - t, s);
      MulSign(s - t, t);
      MulAdd(s, -t, s);
      MulAdd(s, -t, t);
      MulMinus(t, s);
      MulMinus(t, t);
      MulCommutes(s, t);
    }
  }

  lemma BonusMonotone(alpha: real, root: real -> real, v: real, w: real)
    requires alpha >= 0.0 && IsRoot(root) && 0.0 <= v <= w
    ensures 0.0 <= Mul(alpha, root(v)) <= Mul(alpha, root(w))
  {
    RootMonotone(root, v, w);
    hide Mul, IsRoot;
    MulSign(alpha, root(v));
    MulSign(alpha, root(w) - root(v));
    MulAdd(root(w), -root(v), alpha);
    MulMinus(alpha, root(v));
  }

  lemma WidthNeverGrows(n: nat, h: seq<Pull>, p: Pull, arm: Arm, x: Vector)
    requires PullsFit(h, n) && PullsFit(h + [p], n) && |p.sample.x| == |x| == n
    ensures Fits(Of(h, arm), n) && Fits(Of(h + [p], arm), n)
    ensures 0.0 <= Width(n, Of(h + [p], arm), x) <= Width(n, Of(h, arm), x)
  {
    hide PullsFit, Solve, Of, Dot, Design, MatVec;
    OfFits(h, arm, n);
    OfFits(h + [p], arm, n);
    OfOneMore(h, p, arm);
    var before := Of(h, arm);
    if p.arm == arm {
      WidthShrinks(n, before, p.sample, x);
    } else {
      assert Of(h + [p], arm) == before;
      WidthNonNegative(n, before, x, Solve(n, before, x));
    }
  }

  /** No further update of any arm ever raises the exploration bonus of a context. */
  lemma BonusNeverGrows(n: nat, h: seq<Pull>, p: Pull, arm: Arm, x: Vector, alpha: real, root: real -> real)
    requires PullsFit(h, n) && |p.sample.x| == |x| == n && IsRoot(root) && alpha >= 0.0
    ensures Fits(Of(h, arm), n) && Fits(Of(h + [p], arm), n)
    ensures 0.0 <= Mul(alpha, root(Width(n, Of(h + [p], arm), x))) <= Mul(alpha, root(Width(n, Of(h, arm), x)))
  {
    hide Mul, Width, Of, IsRoot;
    WidthNeverGrows(n, h, p, arm, x);
    BonusMonotone(alpha, root, Width(n, Of(h + [p], arm), x), Width(n, Of(h, arm), x));
  }

  lemma BonusOf(bandit: LinUCB, arm: Arm, x: Vector, root: real -> real)
    requires bandit.Valid() && arm in bandit.A && |x| == bandit.dim
    ensures PullsFit(bandit.history, bandit.dim) && Fits(Of(bandit.history, arm), bandit.dim)
    ensures bandit.Score(arm, x, true, root) - bandit.Score(arm, x, false, root)
      == Mul(bandit.alpha, root(Width(bandit.dim, Of(bandit.history, arm), x)))
  {
    assert bandit.SolveFor(arm, x) == Solve(bandit.dim, Of(bandit.history, arm), x);
    hide Mul, Dot, Solve, Of, Design, MatVec;
  }

  /** So exploring adds at most `alpha / √k` to the predicted mean of an arm that was updated `k` times at the context. */
  lemma ScoreNearMean(bandit: LinUCB, arm: Arm, x: Vector, root: real -> real)
    requires bandit.Valid() && arm in bandit.A && |x| == bandit.dim && IsRoot(root) && bandit.alpha >= 0.0
    ensures var k := Times(Of(bandit.history, arm), x) as real;
      var bonus := bandit.Score(arm, x, true, root) - bandit.Score(arm, x, false, root);
      bonus >= 0.0 && Mul(bonus, root(k)) <= bandit.alpha
  {
    hide Mul, Of, Times, IsRoot, PullsFit, Fits, LinUCB.Score, LinUCB.Valid, Width;
    BonusOf(bandit, arm, x, root);
    var n, h := bandit.dim, bandit.history;
    BonusAfterRepeats(n, h, arm, x, bandit.alpha, root);
    WidthIsNonNegative(n, Of(h, arm), x);
    BonusMonotone(bandit.alpha, root, Width(n, Of(h, arm), x), Width(n, Of(h, arm), x));
  }

  lemma WidthIsNonNegative(n: nat, h: seq<Sample>, x: Vector)
    requires Fits(h, n) && |x| == n
    ensures Width(n, h, x) >= 0.0
  {
    WidthNonNegative(n, h, x, Solve(n, h, x));
  }

  /** Python's `max(scores, key=scores.get)`: the first arm of the highest score. */
  function Best(arms: seq<Arm>, score: Arm -> real): Arm
    requires arms != []
  {
    if |arms| == 1 then arms[0]
    else
      var rest := Best(arms[..|arms| - 1], score);
      if score(arms[|arms| - 1]) > score(rest) then arms[|arms| - 1] else rest
  }

  function Candidates(allowed: Option<seq<Arm>>): (arms: seq<Arm>)
    ensures arms != []
    ensures arms == if allowed == None || allowed == Some([]) then ARMS else allowed.value
  {
    if allowed.Some? && allowed.value != [] then allowed.value else ARMS
  }

  function Select(allowed: Option<seq<Arm>>, score: Arm -> real): Arm {
    Best(Candidates(allowed), score)
  }

  /** The selected arm is a candidate, no candidate scores higher, and every earlier one scores lower. */
  lemma {:induction false} BestIsFirstMaximum(arms: seq<Arm>, score: Arm -> real) returns (k: nat)
    requires arms != []
    ensures k < |arms| && Best(arms, score) == arms[k]
    ensures forall i | 0 <= i < |arms| :: score(arms[i]) <= score(arms[k])
    ensures forall i | 0 <= i < k :: score(arms[i]) < score(arms[k])
  {
    if |arms| == 1 {
      k := 0;
    } else {
      k := BestIsFirstMaximum(arms[..|arms| - 1], score);
      if score(arms[|arms| - 1]) > score(arms[k]) {
        k := |arms| - 1;
      }
    }
  }

  /**
   What a score is, told by the arm's matrix and vector: with `A w = b` and
   `A y = x`, the mean is `w·x` and exploring adds `alpha √(x·y)`.
   */
  lemma ScoreIs(bandit: LinUCB, arm: Arm, x: Vector, root: real -> real, w: Vector, y: Vector)
    requires bandit.Valid() && arm in bandit.A && |x| == |w| == |y| == bandit.dim
    requires IsSquare(bandit.A[arm], bandit.dim) && arm in bandit.b
    requires MatVec(bandit.A[arm], w) == bandit.b[arm] && MatVec(bandit.A[arm], y) == x
    ensures bandit.Score(arm, x, false, root) == Dot(w, x)
    ensures bandit.Score(arm, x, true, root) == Dot(w, x) + bandit.alpha * root(Dot(x, y))
  {
    hide Dot, MatVec;
    var theta := bandit.SolveFor(arm, bandit.b[arm]);
    assert bandit.ThetaOf(arm) == theta == w;
    assert bandit.SolveFor(arm, x) == y;
  }

  /** Without exploring, the ridge weights of no candidate predict more than those of the selected arm. */
  lemma SelectedPredictsMost(bandit: LinUCB, x: Vector, allowed: Option<seq<Arm>>, root: real -> real,
                             a: Arm, v: Vector, w: Vector)
    requires bandit.Valid() && |x| == |v| == |w| == bandit.dim
    requires forall c | c in Candidates(allowed) :: c in bandit.A && c in bandit.b && IsSquare(bandit.A[c], bandit.dim)
    requires a in Candidates(allowed) && MatVec(bandit.A[a], v) == bandit.b[a]
    requires MatVec(bandit.A[bandit.Selected(x, allowed, false, root)], w)
      == bandit.b[bandit.Selected(x, allowed, false, root)]
    ensures Dot(v, x) <= Dot(w, x)
  {
    hide LinUCB.Valid, LinUCB.Score, LinUCB.Selected, LinUCB.SolveFor, Candidates, Dot, MatVec, IsSquare;
    var k := SelectedIsFirstBest(bandit, x, allowed, false, root);
    var arm := bandit.Selected(x, allowed, false, root);
    ScoreIs(bandit, a, x, root, v, bandit.SolveFor(a, x));
    ScoreIs(bandit, arm, x, root, w, bandit.SolveFor(arm, x));
  }

  lemma {:induction false} OfAllAt(h: seq<Pull>, arm: Arm, x: Vector)
    requires forall p | p in h :: p.sample.x == x
    ensures AllAt(Of(h, arm), x)
  {
    if h != [] {
      OfAllAt(h[..|h| - 1], arm, x);
    }
  }

  /** The predicted mean of an arm follows its rewards, when every update was at the one context. */
  lemma ScoreFollowsReward(bandit: LinUCB, arm: Arm, x: Vector, root: real -> real)
    requires bandit.Valid() && arm in bandit.A && |x| == bandit.dim && x != Zeros(bandit.dim)
    requires forall p | p in bandit.history :: p.sample.x == x
    ensures bandit.Score(arm, x, false, root) > 0.0 <==> TotalReward(Of(bandit.history, arm)) > 0.0
  {
    OfAllAt(bandit.history, arm, x);
    hide Dot, MatVec, Of, TotalReward;
    var n, h := bandit.dim, Of(bandit.history, arm);
    assert bandit.ThetaOf(arm) == Theta(n, h);
    MeanFollowsReward(n, h, x);
  }

  /**
   The bandit learns: when one candidate earned more than it lost at a
   context and no other did, that candidate is selected there.
   */
  lemma RewardedArmSelected(bandit: LinUCB, x: Vector, allowed: Option<seq<Arm>>, root: real -> real, arm: Arm)
    requires bandit.Valid() && |x| == bandit.dim && x != Zeros(bandit.dim)
    requires arm in Candidates(allowed) && forall c | c in Candidates(allowed) :: c in bandit.A
    requires forall p | p in bandit.history :: p.sample.x == x
    requires TotalReward(Of(bandit.history, arm)) > 0.0
    requires forall c | c in Candidates(allowed) && c != arm :: TotalReward(Of(bandit.history, c)) <= 0.0
    ensures bandit.Selected(x, allowed, false, root) == arm
  {
    hide LinUCB.Valid, LinUCB.Score, LinUCB.Selected, Candidates, Of, TotalReward;
    var k := SelectedIsFirstBest(bandit, x, allowed, false, root);
    ScoreFollowsReward(bandit, arm, x, root);
    ScoreFollowsReward(bandit, bandit.Selected(x, allowed, false, root), x, root);
  }

  datatype Episode = Episode(riskScore: real, assetCriticality: real, objective: string, actionClass: Arm, reward: real)

  function PullOf(ep: Episode): Pull {
    Pull(ep.actionClass, Sample(BuildContext(ep.riskScore, ep.assetCriticality, ep.objective), ep.reward))
  }

  /** The updates that a list of episodes asks for; unknown action classes are skipped. */
  ghost function Known(episodes: seq<Episode>): seq<Pull> {
    if episodes == [] then []
    else
      var ep := episodes[|episodes| - 1];
      Known(episodes[..|episodes| - 1]) + if ep.actionClass in ARMS then [PullOf(ep)] else []
  }

  lemma KnownOneMore(episodes: seq<Episode>, i: nat)
    requires i < |episodes|
    ensures Known(episodes[..i + 1])
      == if episodes[i].actionClass in ARMS then Known(episodes[..i]) + [PullOf(episodes[i])] else Known(episodes[..i])
  {
    assert episodes[..i + 1][..i] == episodes[..i];
    assert Known(episodes[..i]) + [] == Known(episodes[..i]);
  }

  method WarmStart(bandit: LinUCB, episodes: seq<Episode>) returns (count: int)
    requires bandit.Valid() && bandit.dim == FEATURE_DIM
    modifies bandit
    ensures bandit.Valid()
    ensures bandit.history == old(bandit.history) + Known(episodes)
    ensures count == |Known(episodes)|
  {
    hide LinUCB.Valid;
    count := 0;
    for i := 0 to |episodes|
      invariant bandit.Valid()
      invariant bandit.history == old(bandit.history) + Known(episodes[..i])
      invariant count == |Known(episodes[..i])|
    {
      var ep := episodes[i];
      var x := BuildContext(ep.riskScore, ep.assetCriticality, ep.objective);
      if ep.actionClass in bandit.A {
        bandit.Update(ep.actionClass, x, ep.reward);
        count := count + 1;
      }
      KnownOneMore(episodes, i);
    }
    assert episodes[..|episodes|] == episodes;
  }
}
