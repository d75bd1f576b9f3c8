// One static particle group (gold lights, red lights or gifts) and its per-frame update,
// `updateParticleGroup` (magic.js:685-750). Colours, rotation and scale are left out: they
// are driven by Math.sin of the clock and carry no contract beyond their look.
module Groups {
  import opened States
  import opened Motion

  /** A group's geometry: one position triple per particle eased toward one of three
      precomputed layouts, and one size per particle. */
  class ParticleGroup {
    const tree: seq<real>
    const explode: seq<real>
    const heart: seq<real>
    const positions: array<real>
    const sizes: array<real>
    const baseSize: real

    /** Three coordinates per particle in every buffer and layout. */
    ghost predicate Valid()
      reads this
    {
      && positions != sizes
      && positions.Length == 3 * sizes.Length
      && |tree| == positions.Length && |explode| == positions.Length
      && |heart| == positions.Length
    }

    /** The buffers Update writes. */
    ghost function Repr(): set<object>
    {
      {positions, sizes}
    }

    /** One update for state s: every coordinate took one smoothing step toward the layout
        of s, and every size was reset to SizeFor(s, i). */
    twostate predicate Stepped(s: AppState, speed: real)
      reads this, positions, sizes
      requires Valid()
    {
      && (forall i :: 0 <= i < positions.Length ==>
            positions[i] == Ease(old(positions[i]), Targets(s)[i], speed))
      && (forall i :: 0 <= i < sizes.Length ==> sizes[i] == SizeFor(s, i))
    }

    /** The layout a state eases toward; PHOTO shares the explode layout. */
    function Targets(s: AppState): (t: seq<real>)
      reads this
      ensures s == TREE ==> t == tree
      ensures s == HEART ==> t == heart
      ensures s == EXPLODE || s == PHOTO ==> t == explode
      ensures Valid() ==> |t| == positions.Length
    {
      match TargetLayout(s)
      case Tree => tree
      case Explode => explode
      case Heart => heart
    }

    /** The size particle i takes: the base size, except in the heart layout, where only
        every fifth particle is drawn, at 60% of the base size. */
    function SizeFor(s: AppState, i: nat): (z: real)
      reads this
      ensures s != HEART ==> z == baseSize
      ensures s == HEART ==> (z != 0.0 <==> i % 5 == 0 && baseSize != 0.0)
    {
      if s == HEART then (if i % 5 == 0 then baseSize * 0.6 else 0.0) else baseSize
    }

    constructor (tree: seq<real>, explode: seq<real>, heart: seq<real>, count: nat, baseSize: real)
      requires |tree| == 3 * count && |explode| == 3 * count && |heart| == 3 * count
      ensures Valid() && sizes.Length == count
      ensures this.tree == tree && this.explode == explode && this.heart == heart
      ensures this.baseSize == baseSize
      ensures fresh(positions) && fresh(sizes)
    {
      this.tree, this.explode, this.heart := tree, explode, heart;
      this.baseSize := baseSize;
      positions := new real[3 * count](i => 0.0);
      sizes := new real[count](i => 0.0);
    }

    /** updateParticleGroup: every coordinate takes one smoothing step toward the layout
        of `s`, and every size is reset; the buffers keep their lengths. With a speed in
        (0, 1], no coordinate overshoots its target. */
    method Update(s: AppState, speed: real)
      requires Valid()
      modifies positions, sizes
      ensures Stepped(s, speed)
      ensures 0.0 < speed <= 1.0 ==> forall i :: 0 <= i < positions.Length ==>
        Between(positions[i], old(positions[i]), Targets(s)[i])
    {
      var targets := Targets(s);
      var i := 0;
      while i < positions.Length
        invariant 0 <= i <= positions.Length
        invariant forall j :: 0 <= j < i ==>
          positions[j] == Ease(old(positions[j]), targets[j], speed)
        invariant forall j :: i <= j < positions.Length ==> positions[j] == old(positions[j])
        invariant 0.0 < speed <= 1.0 ==> forall j :: 0 <= j < i ==>
          Between(positions[j], old(positions[j]), targets[j])
      {
        if 0.0 < speed <= 1.0 {
          EaseStep(positions[i], targets[i], speed);
        }
        positions[i] := Ease(positions[i], targets[i], speed);
        i := i + 1;
      }
      var k := 0;
      while k < sizes.Length
        modifies sizes
        invariant 0 <= k <= sizes.Length
        invariant forall j :: 0 <= j < k ==> sizes[j] == SizeFor(s, j)
      {
        sizes[k] := SizeFor(s, k);
        k := k + 1;
      }
    }
  }
}
