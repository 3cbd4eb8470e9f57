/** The result record and the two enumerations declared inside `SvgCollision` (Source/SvgCollision.cs). */
module CollisionResults {
  import opened Wrappers
  import opened Geometry

  /** `collisionCheckType`: which tests to perform. */
  datatype CheckType = LineCollision | SeparatingAxisTheorem | Mixed

  /** `boundCrossingType`; `Inside` is the enumeration's first member and so the default value. */
  datatype BoundCrossing = Inside | Outside | MixedCrossing

  /**
   * `PolygonCollisionResult`. A `None` translation vector is a NaN vector; a `None`
   * point list is a `null` list; a `None` point inside the list is one computed with
   * a zero determinant (NaN or infinite coordinates); a `None` name is `null`.
   */
  datatype PolygonCollisionResult = PolygonCollisionResult(
    willIntersect: bool,
    isIntersecting: bool,
    onPath: bool,
    minimumTranslationVector: Option<Vec>,
    collidor: Option<string>,
    collidee: Option<string>,
    lineIntersectingPoints: Option<seq<Option<Vec>>>,
    rayCastingResult: BoundCrossing)

  /** `new PolygonCollisionResult()`: every field at its default value. */
  const Default := PolygonCollisionResult(false, false, false, Some(Zero), None, None, None, Inside)
}
