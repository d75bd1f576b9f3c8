// The application's discrete state and the target layout each state selects
// (magic.js:101, 693-694).
module States {

  /** The single process-wide state the gesture handler sets and every frame reads. */
  datatype AppState = TREE | EXPLODE | PHOTO | HEART

  /** The named target arrays of a static particle group (geo.userData.tree/explode/heart). */
  datatype Layout = Tree | Explode | Heart

  /** The target array `updateParticleGroup` eases toward: PHOTO shares EXPLODE's targets. */
  function TargetLayout(s: AppState): (l: Layout)
    ensures l == Tree <==> s == TREE
    ensures l == Heart <==> s == HEART
    ensures l == Explode <==> s == EXPLODE || s == PHOTO
  {
    match s
    case TREE => Tree
    case HEART => Heart
    case EXPLODE => Explode
    case PHOTO => Explode
  }
}
