/**
 * `check_ortho` (aiida_bigdft_new/utils/preprocess.py): the orthorhombic
 * precondition on the cell of a structure. The structure is returned
 * unchanged when its three cell angles are exactly 90 degrees; otherwise the
 * call raises, and asking for coercion only changes which exception.
 */
module Preprocess {
  import opened Wrappers

  /** One atom of a structure: its chemical symbol and Cartesian position. */
  datatype Site = Site(symbol: string, position: seq<real>)

  /** The parts of a structure the check can see. */
  datatype Structure = Structure(cellLengths: seq<real>, cellAngles: seq<real>, sites: seq<Site>)

  /** The exceptions `check_ortho` raises. */
  datatype CheckError = ValueError(message: string) | NotImplementedError(message: string)

  const NonOrthoMessage: string := "non orthorhombic cells are not supported"

  /** The text of the `NotImplementedError` for a Bravais-lattice variant. */
  function CoerceMessage(variant: string): (m: string)
    ensures |m| == 35 + |variant| && m[..35] == "cannot transform to orthogonal for " && m[35..] == variant
  {
    "cannot transform to " + "orthogonal for " + variant
  }

  /** Every angle, in degrees, is a right angle and there are three of them. */
  predicate RightAngled(angles: seq<real>) {
    |angles| == 3 && forall k :: 0 <= k < 3 ==> angles[k] == 90.0
  }

  /**
   * `check_ortho(structure, coerce)`. `variant` is what the foreign
   * `get_bravais_lattice().variant` reports for the cell; it is only consulted
   * when `coerce` is set.
   */
  function CheckOrtho(structure: Structure, coerce: bool, variant: string): (r: Result<Structure, CheckError>)
    ensures r.Ok? <==> RightAngled(structure.cellAngles)
    ensures r.Ok? ==> r.value == structure
    ensures r == Err(ValueError(NonOrthoMessage)) <==> !RightAngled(structure.cellAngles) && !coerce
    ensures r.Err? && r.error.NotImplementedError? <==> !RightAngled(structure.cellAngles) && coerce
    ensures r.Err? && r.error.NotImplementedError? ==> r.error.message == CoerceMessage(variant)
  {
    if structure.cellAngles == [90.0, 90.0, 90.0] then Ok(structure)
    else if !coerce then Err(ValueError(NonOrthoMessage))
    else Err(NotImplementedError(CoerceMessage(variant)))
  }

  /** The list comparison of the source is the element-wise right-angle test. */
  lemma {:induction false} ListTestIsRightAngled(angles: seq<real>)
    ensures angles == [90.0, 90.0, 90.0] <==> RightAngled(angles)
  {
    if RightAngled(angles) {
      assert angles == [angles[0], angles[1], angles[2]];
    }
  }

  /**
   * Whether the check passes, and which exception it raises, depends on the
   * three angles and `coerce` alone. The lattice variant may differ between
   * the two structures, since the library derives it from the whole cell.
   */
  lemma {:induction false} OutcomeIgnoresLengthsAndSites(s1: Structure, s2: Structure, coerce: bool, v1: string, v2: string)
    requires s1.cellAngles == s2.cellAngles
    ensures CheckOrtho(s1, coerce, v1).Ok? == CheckOrtho(s2, coerce, v2).Ok?
    ensures CheckOrtho(s1, coerce, v1).Err? ==>
              CheckOrtho(s2, coerce, v2).Err? && CheckOrtho(s1, coerce, v1).error.ValueError? == CheckOrtho(s2, coerce, v2).error.ValueError?
    ensures !coerce && CheckOrtho(s1, coerce, v1).Err? ==> CheckOrtho(s1, coerce, v1) == CheckOrtho(s2, coerce, v2)
  {
  }

  /** With the default `coerce=False` the lattice variant is never looked at. */
  lemma {:induction false} DefaultIgnoresVariant(s: Structure, v1: string, v2: string)
    ensures CheckOrtho(s, false, v1) == CheckOrtho(s, false, v2)
  {
  }

  /** Checking a structure that passed changes nothing: the check is idempotent. */
  lemma {:induction false} CheckIdempotent(s: Structure, coerce: bool, variant: string)
    requires CheckOrtho(s, coerce, variant).Ok?
    ensures CheckOrtho(CheckOrtho(s, coerce, variant).value, coerce, variant) == CheckOrtho(s, coerce, variant)
  {
  }

  /** A cubic cell passes; a hexagonal one is refused either way. */
  lemma {:induction false} CubicPassesHexagonalFails(sites: seq<Site>, variant: string)
    ensures CheckOrtho(Structure([4.0, 4.0, 4.0], [90.0, 90.0, 90.0], sites), false, variant).Ok?
    ensures CheckOrtho(Structure([5.0, 5.0, 7.0], [90.0, 90.0, 120.0], sites), false, variant)
              == Err(ValueError(NonOrthoMessage))
    ensures CheckOrtho(Structure([5.0, 5.0, 7.0], [90.0, 90.0, 120.0], sites), true, variant)
              == Err(NotImplementedError(CoerceMessage(variant)))
  {
  }
}
