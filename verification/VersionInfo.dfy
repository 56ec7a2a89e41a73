/** Versions and version constraints (util/version-info/version_info.c), on values. */
module VersionInfo {

  datatype Option<T> = None | Some(value: T)

  datatype Version = Version(major: int, minor: int, patch: int)

  datatype Operand = Ignore | Equals | NotEquals | GreaterThan | GreaterEquals | LesserThan | LesserEquals

  datatype Constraint = Constraint(version: Version, operand: Operand)

  const INT_MAX: int := 0x7FFF_FFFF
  const LONG_MAX: int := 0x7FFF_FFFF_FFFF_FFFF

  predicate IsInt(x: int) {
    -INT_MAX - 1 <= x <= INT_MAX
  }

  // ---------- Comparison ----------

  /** version_info_compare */
  function Compare(a: Version, b: Version): int {
    if a.major < 0 || b.major < 0 then 0
    else if a.major != b.major then a.major - b.major
    else if a.minor < 0 || b.minor < 0 then 0
    else if a.minor != b.minor then a.minor - b.minor
    else if a.patch < 0 || b.patch < 0 then 0
    else a.patch - b.patch
  }

  /** The segments a version has: those in front of the first negative one. */
  function Segments(v: Version): seq<int> {
    if v.major < 0 then []
    else if v.minor < 0 then [v.major]
    else if v.patch < 0 then [v.major, v.minor]
    else [v.major, v.minor, v.patch]
  }

  /** x comes before y in dictionary order; a sequence does not differ from its extensions. */
  predicate Before(x: seq<int>, y: seq<int>) {
    x != [] && y != [] && (x[0] < y[0] || (x[0] == y[0] && Before(x[1..], y[1..])))
  }

  /** Versions are compared by the segments that both of them have. */
  lemma CompareMeans(a: Version, b: Version)
    ensures Compare(a, b) < 0 <==> Before(Segments(a), Segments(b))
    ensures Compare(a, b) > 0 <==> Before(Segments(b), Segments(a))
    ensures Compare(a, b) == 0 <==> Segments(a) <= Segments(b) || Segments(b) <= Segments(a)
  {
    var x, y := Segments(a), Segments(b);
    NeitherBefore(x, y);
    if x != [] && y != [] && x[1..] != [] && y[1..] != [] {
      assert x[1..][1..] == x[2..] && y[1..][1..] == y[2..];
      assert Before(x[2..], y[2..]) <==> x[2..] != [] && y[2..] != [] && x[2] < y[2];
      assert Before(y[2..], x[2..]) <==> x[2..] != [] && y[2..] != [] && y[2] < x[2];
    }
  }

  lemma {:induction false} NeitherBefore(x: seq<int>, y: seq<int>)
    ensures !(Before(x, y) && Before(y, x))
    ensures !Before(x, y) && !Before(y, x) <==> x <= y || y <= x
  {
    if x != [] && y != [] {
      NeitherBefore(x[1..], y[1..]);
      assert x == [x[0]] + x[1..] && y == [y[0]] + y[1..];
      PrefixTails(x, y);
      PrefixTails(y, x);
    }
  }

  lemma PrefixTails(x: seq<int>, y: seq<int>)
    requires x != [] && y != []
    ensures x <= y <==> x[0] == y[0] && x[1..] <= y[1..]
  {
    if x <= y {
      assert x[1..] == y[..|x|][1..] == y[1..][..|x| - 1];
    }
    if x[0] == y[0] && x[1..] <= y[1..] {
      assert y[..|x|] == [y[0]] + y[1..][..|x| - 1];
      assert x == [x[0]] + x[1..];
    }
  }

  /** A full version has three segments. */
  predicate Full(v: Version) {
    v.major >= 0 && v.minor >= 0 && v.patch >= 0
  }

  /** The difference of two segments fits an int. */
  lemma NoOverflow(a: Version, b: Version)
    requires IsInt(a.major) && IsInt(a.minor) && IsInt(a.patch) && IsInt(b.major) && IsInt(b.minor) && IsInt(b.patch)
    ensures IsInt(Compare(a, b))
  {
  }

  /** version_constraint_check */
  predicate Passes(c: Constraint, v: Version) {
    match c.operand
    case Ignore => true
    case Equals => Compare(v, c.version) == 0
    case NotEquals => Compare(v, c.version) != 0
    case GreaterThan => Compare(v, c.version) > 0
    case GreaterEquals => Compare(v, c.version) >= 0
    case LesserThan => Compare(v, c.version) < 0
    case LesserEquals => Compare(v, c.version) <= 0
  }

  /** What a version must be like to pass, in terms of the segments of both: ">" asks it to come behind the version given,
      ">=" only not to come before it, and "=" and "<>" whether one of them merely says more than the other. */
  lemma PassesMeans(w: Version, op: Operand, v: Version)
    ensures
      var passes, x, y := Passes(Constraint(w, op), v), Segments(w), Segments(v);
      match op
      case Ignore => passes
      case Equals => passes <==> x <= y || y <= x
      case NotEquals => passes <==> !(x <= y) && !(y <= x)
      case GreaterThan => passes <==> Before(x, y)
      case GreaterEquals => passes <==> !Before(y, x)
      case LesserThan => passes <==> Before(y, x)
      case LesserEquals => passes <==> !Before(x, y)
  {
    CompareMeans(v, w);
    NeitherBefore(Segments(w), Segments(v));
  }

  /** 6.0.0 is greater than 5; neither 4.9.9 nor 5.0.1 is, and 5.0.1 is not lesser either. */
  lemma GreaterThanFive()
    ensures
      var c := Constraint(Version(5, -1, -1), GreaterThan);
      Passes(c, Version(6, 0, 0)) && !Passes(c, Version(4, 9, 9)) && !Passes(c, Version(5, 0, 1))
    ensures !Passes(Constraint(Version(5, -1, -1), LesserThan), Version(5, 0, 1))
  {
  }

  /** Among full versions comparison with any version, partial or not, never goes back. */
  lemma CompareMonotone(v: Version, w: Version, c: Version)
    requires Full(v) && Full(w) && Compare(v, w) <= 0
    ensures Compare(v, c) > 0 ==> Compare(w, c) > 0
    ensures Compare(v, c) >= 0 ==> Compare(w, c) >= 0
    ensures Compare(w, c) < 0 ==> Compare(v, c) < 0
    ensures Compare(w, c) <= 0 ==> Compare(v, c) <= 0
  {
  }

  /** Of two full versions the greater one passes ">" and ">=" if the lesser does, and the lesser one "<" and "<=" if the
      greater does: the interval of one such constraint is open towards the greater or towards the lesser versions. */
  lemma OneSided(w: Version, op: Operand, lesser: Version, greater: Version)
    requires Full(lesser) && Full(greater) && !Before(Segments(greater), Segments(lesser))
    ensures op in {GreaterThan, GreaterEquals} && Passes(Constraint(w, op), lesser) ==> Passes(Constraint(w, op), greater)
    ensures op in {LesserThan, LesserEquals} && Passes(Constraint(w, op), greater) ==> Passes(Constraint(w, op), lesser)
  {
    CompareMeans(lesser, greater);
    CompareMonotone(lesser, greater, w);
  }

  /** The full versions that pass a list of constraints without "<>" form an interval. */
  lemma PassingIsInterval(cs: seq<Constraint>, v: Version, w: Version, x: Version)
    requires forall c :: c in cs ==> c.operand != NotEquals
    requires Full(v) && Full(w) && Full(x) && Compare(v, w) <= 0 && Compare(w, x) <= 0
    requires forall c :: c in cs ==> Passes(c, v) && Passes(c, x)
    ensures forall c :: c in cs ==> Passes(c, w)
  {
    forall c | c in cs
      ensures Passes(c, w)
    {
      CompareMonotone(v, w, c.version);
      CompareMonotone(w, x, c.version);
    }
  }

  /** A constraint "<>" cuts a hole, and a partial version is not between full ones in any useful sense:
      4.0 is neither below nor above 4, and 4 is neither below nor above 4.1. */
  lemma WithoutThatNoInterval()
    ensures
      var c := Constraint(Version(5, -1, -1), NotEquals);
      Passes(c, Version(4, 0, 0)) && !Passes(c, Version(5, 0, 0)) && Passes(c, Version(6, 0, 0))
    ensures Compare(Version(4, 0, -1), Version(4, -1, -1)) == 0
    ensures Compare(Version(4, -1, -1), Version(4, 1, -1)) == 0
    ensures Compare(Version(4, 0, -1), Version(4, 1, -1)) < 0
  {
  }

  /** version_constraints_check */
  method CheckConstraints(cs: seq<Constraint>, v: Version) returns (ok: bool)
    ensures ok <==> forall c :: c in cs ==> Passes(c, v)
  {
    var i := 0;
    while i < |cs|
      invariant 0 <= i <= |cs|
      invariant forall j :: 0 <= j < i ==> Passes(cs[j], v)
    {
      if !Passes(cs[i], v) {
        return false;
      }
      i := i + 1;
    }
    return true;
  }
}
