/** Precedence as section 11 of Semantic Versioning 2.0.0 states it, independent of any comparison code. */
module Precedence {
  import opened Texts
  import L = Lexicographic

  datatype Identifier = Numeric(n: nat) | Alphanumeric(text: Text)

  /** `core` is major, minor and patch. */
  datatype Version = Version(core: seq<nat>, pre: seq<Identifier>)

  predicate UnitLess(a: Unit, b: Unit) {
    a < b
  }

  predicate NatLess(a: nat, b: nat) {
    a < b
  }

  ghost predicate IdentifierLess(x: Identifier, y: Identifier) {
    match (x, y)
    case (Numeric(m), Numeric(n)) => m < n
    case (Numeric(_), Alphanumeric(_)) => true
    case (Alphanumeric(_), Numeric(_)) => false
    case (Alphanumeric(s), Alphanumeric(t)) => L.Before(UnitLess, s, t)
  }

  /** Major, minor, patch in that order; then a pre-release is lower; then its identifiers from left to right. */
  ghost predicate Lower(v: Version, w: Version) {
    || L.Before(NatLess, v.core, w.core)
    || (v.core == w.core && v.pre != [] && (w.pre == [] || L.Before(IdentifierLess, v.pre, w.pre)))
  }

  lemma UnitsTotal()
    ensures L.StrictTotal(UnitLess)
  {
  }

  lemma NatsTotal()
    ensures L.StrictTotal(NatLess)
  {
  }

  lemma IdentifiersTotal()
    ensures L.StrictTotal(IdentifierLess)
  {
    UnitsTotal();
    forall x: Identifier ensures !IdentifierLess(x, x) {
      if x.Alphanumeric? { L.Irreflexive(UnitLess, x.text); }
    }
    forall x: Identifier, y: Identifier ensures IdentifierLess(x, y) || x == y || IdentifierLess(y, x) {
      if x.Alphanumeric? && y.Alphanumeric? { L.Trichotomous(UnitLess, x.text, y.text); }
    }
    forall x: Identifier, y: Identifier, z: Identifier | IdentifierLess(x, y) && IdentifierLess(y, z)
      ensures IdentifierLess(x, z)
    {
      if x.Alphanumeric? && y.Alphanumeric? && z.Alphanumeric? { L.Transitive(UnitLess, x.text, y.text, z.text); }
    }
  }

  lemma LowerTotal(v: Version, w: Version)
    ensures !Lower(v, v) && (Lower(v, w) || v == w || Lower(w, v))
  {
    NatsTotal();
    IdentifiersTotal();
    L.Irreflexive(NatLess, v.core);
    L.Irreflexive(IdentifierLess, v.pre);
    L.Trichotomous(NatLess, v.core, w.core);
    L.Trichotomous(IdentifierLess, v.pre, w.pre);
  }

  lemma LowerTransitive(u: Version, v: Version, w: Version)
    requires Lower(u, v) && Lower(v, w)
    ensures Lower(u, w)
  {
    NatsTotal();
    IdentifiersTotal();
    if L.Before(NatLess, u.core, v.core) && L.Before(NatLess, v.core, w.core) {
      L.Transitive(NatLess, u.core, v.core, w.core);
    }
    if L.Before(IdentifierLess, u.pre, v.pre) && L.Before(IdentifierLess, v.pre, w.pre) {
      L.Transitive(IdentifierLess, u.pre, v.pre, w.pre);
    }
  }
}
