/** The highlight animation: while a highlight descriptor with a transition
    part is present, every display frame adds 0.02 to a progress value local
    to the effect run, and the value drops to 0 once it exceeds 1. The frame
    scheduling itself is not modelled; a run is the sequence of values handed
    to the canvas, one per frame. */
module Animation {
  import opened Canvas
  import opened EdgeClass

  const Increment: real := 0.02

  /** A run is scheduled only for a descriptor that has its transition
      part: exactly the descriptors that can highlight some edge. */
  function Active(h: Option<Highlight>): (b: bool)
    ensures b ==> h.Some? && h.value.d.Some? && IsHighlighted(h, NamedEdge(h.value))
    ensures !b ==> forall e :: !IsHighlighted(h, e)
  {
    h.Some? && h.value.d.Some?
  }

  /** The edge a descriptor names, between nodes carrying only the ids. */
  function NamedEdge(d: Highlight): Edge
    requires d.d.Some?
  {
    Edge(Node(d.target, 0.0, 0.0, []), Node(d.d.value.targetid, 0.0, 0.0, []), d.d.value.symbol)
  }

  /** One frame: add the increment, and start over at 0 (no clamping) once
      the sum exceeds 1. */
  function Advance(p: real): (r: real)
    ensures 0.0 <= p <= 1.0 ==> 0.0 <= r <= 1.0
    ensures r != 0.0 ==> r > p
  {
    var q := p + Increment;
    if q > 1.0 then 0.0 else q
  }

  /** Progress after `n` frames of a run, which always starts at 0. */
  function Progress(n: nat): (r: real)
    ensures 0.0 <= r <= 1.0
  {
    if n == 0 then 0.0 else Advance(Progress(n - 1))
  }

  /** From a grid point k/50 one frame goes to (k+1)/50, except that 1 goes
      to 0. */
  lemma AdvanceOnGrid(m: nat)
    requires m <= 50
    ensures Advance(m as real / 50.0) == ((m + 1) % 51) as real / 50.0
  {
    if m < 50 {
      assert (m + 1) % 51 == m + 1;
      assert m as real / 50.0 + Increment == (m + 1) as real / 50.0;
    } else {
      assert (m + 1) % 51 == 0;
    }
  }

  /** Closed form of a run over exact reals: after n frames the progress is
      (n mod 51)/50, so a cycle takes 51 frames and passes through exactly 1.
      (With doubles the rounded sum passes 1 one frame earlier.) */
  lemma {:induction false} ProgressClosedForm(n: nat)
    ensures Progress(n) == (n % 51) as real / 50.0
  {
    if n > 0 {
      ProgressClosedForm(n - 1);
      var m := (n - 1) % 51;
      AdvanceOnGrid(m);
      assert (m + 1) % 51 == n % 51;
    }
  }

  /** The progress cycle repeats every 51 frames. */
  lemma ProgressPeriodic(n: nat)
    ensures Progress(n + 51) == Progress(n)
  {
    ProgressClosedForm(n);
    ProgressClosedForm(n + 51);
    assert (n + 51) % 51 == n % 51;
  }

  /** The value reaches exactly 1 on frame 50 and only the next frame resets
      it to 0; within a cycle each frame adds exactly the increment. */
  lemma ProgressCycle(n: nat)
    ensures Progress(50) == 1.0 && Progress(51) == 0.0
    ensures n % 51 != 50 ==> Progress(n + 1) == Progress(n) + Increment
    ensures n % 51 == 50 ==> Progress(n + 1) == 0.0
  {
    ProgressClosedForm(50);
    ProgressClosedForm(51);
    ProgressClosedForm(n);
    ProgressClosedForm(n + 1);
    if n % 51 != 50 {
      assert (n + 1) % 51 == n % 51 + 1;
    } else {
      assert (n + 1) % 51 == 0;
    }
  }

  /** One effect run over `frames` frames: the values the canvas receives.
      Nothing runs without an active descriptor; otherwise frame k (from 0)
      delivers ((k+1) mod 51)/50. */
  method RunAnimation(h: Option<Highlight>, frames: nat) returns (values: seq<real>)
    ensures !Active(h) ==> values == []
    ensures Active(h) ==> |values| == frames
    ensures Active(h) ==> forall k :: 0 <= k < frames ==> values[k] == ((k + 1) % 51) as real / 50.0
    ensures forall k :: 0 <= k < |values| ==> 0.0 <= values[k] <= 1.0
  {
    values := [];
    if !Active(h) {
      return;
    }
    var progress := 0.0;
    var k := 0;
    while k < frames
      invariant 0 <= k <= frames
      invariant |values| == k
      invariant progress == (k % 51) as real / 50.0
      invariant forall j :: 0 <= j < k ==> values[j] == ((j + 1) % 51) as real / 50.0
    {
      AdvanceOnGrid(k % 51);
      assert (k % 51 + 1) % 51 == (k + 1) % 51;
      progress := progress + Increment;
      if progress > 1.0 {
        progress := 0.0;
      }
      values := values + [progress];
      k := k + 1;
    }
  }

  /** A highlighted edge implies a scheduled run. */
  lemma HighlightedEdgeAnimates(h: Option<Highlight>, e: Edge)
    requires IsHighlighted(h, e)
    ensures Active(h)
  {
  }

  /** The converse fails: the run depends on the descriptor only, so it goes
      on when no edge matches it. */
  lemma ActiveWithoutEdge()
    ensures var h := Some(Highlight(Some(Transition("q1", "a")), "q0"));
      Active(h) && RenderPlan([], map[], h) == []
  {
  }
}
