/** The values that the bidirectional reordering of nana passes around: character
    kinds, and entities, which are stretches of text of one kind and one level. */
module BidiTypes {

  datatype Kind =
    | L | LRE | LRO | R | AL | RLE | RLO
    | PDF | EN | ES | ET | AN | CS | NSM | BN
    | B | S | WS | ON

  /** `begin` and `end` are indices into the text; the source keeps pointers. */
  datatype Entity = Entity(begin: nat, end: nat, kind: Kind, level: nat)

  /** The kinds in the enumerator block 0x2000. */
  predicate IsNeutral(k: Kind) {
    k.B? || k.S? || k.WS? || k.ON?
  }

  predicate IsSeparator(k: Kind) {
    k.ES? || k.CS?
  }

  /** The kinds that only the five explicit embedding characters have. */
  predicate IsExplicit(k: Kind) {
    k.LRE? || k.LRO? || k.RLE? || k.RLO? || k.PDF?
  }

  /** The direction of an embedding level. */
  function Sor(level: nat): Kind {
    if level % 2 == 1 then R else L
  }

  /** Entity i is the first of a level run. */
  predicate RunStart(v: seq<Entity>, i: nat)
    requires i < |v|
  {
    i == 0 || v[i - 1].level != v[i].level
  }

  predicate OneLevel(v: seq<Entity>) {
    forall i | 0 < i < |v| :: v[i].level == v[i - 1].level
  }

  /** Text positions and levels agree; only kinds may differ. */
  predicate SameShape(v: seq<Entity>, w: seq<Entity>) {
    |v| == |w| && forall i | 0 <= i < |v| :: w[i] == v[i].(kind := w[i].kind)
  }
}
