/**
 The glibc compatibility gate of `getPlatform` (templates/npm/binary.js).
 The version string is split on `.`; its first two pieces are compared
 with `<` against the numbers 2 and 17, which makes JavaScript coerce each
 piece to a number. A missing piece is `undefined` and a non-numeric one is
 `NaN`; both make `<` false.
 */
module Glibc {
  import opened Results
  import opened Strings

  const MinMajor: nat := 2
  const MinMinor: nat := 17

  /** The two leading components of a glibc version, each a number or `None` for `NaN`/`undefined`. */
  datatype Version = Version(major: Option<nat>, minor: Option<nat>)

  /** How the gate compares a version with the minimum 2.17. */
  datatype Rule =
    | Naive  // the comparison as written: each component on its own
    | Tuple  // the lexicographic comparison the error message promises

  /** `libc_version.split(".")` followed by reading elements 0 and 1. */
  function ParseVersion(s: string): Version
  {
    var pieces := Split(s, '.');
    Version(ToNumber(pieces[0]), if |pieces| > 1 then ToNumber(pieces[1]) else None)
  }

  /** The dotted spelling of a numeric version. */
  function Format(major: nat, minor: nat): string
  {
    Decimal(major) + "." + Decimal(minor)
  }

  /** A component's `<` against a bound: false when the component is `NaN` or `undefined`. */
  predicate Below(c: Option<nat>, bound: nat)
  {
    c.Some? && c.value < bound
  }

  /** Whether the gate refuses `v` under `rule`. */
  predicate TooOld(rule: Rule, v: Version)
  {
    match rule
    case Naive => Below(v.major, MinMajor) || Below(v.minor, MinMinor)
    case Tuple => Below(v.major, MinMajor) || (v.major == Some(MinMajor) && Below(v.minor, MinMinor))
  }

  /** Lexicographic order on (major, minor) pairs. */
  predicate LexLess(a: (nat, nat), b: (nat, nat))
  {
    a.0 < b.0 || (a.0 == b.0 && a.1 < b.1)
  }

  /** A formatted version parses back to its two components. */
  lemma {:induction false} ParseFormat(major: nat, minor: nat)
    ensures ParseVersion(Format(major, minor)) == Version(Some(major), Some(minor))
  {
    var a, b := Decimal(major), Decimal(minor);
    assert Format(major, minor) == a + ['.'] + b;
    SplitAfterPiece(a, b, '.');
    SplitWithoutSeparator(b, '.');
    ToNumberDecimal(major);
    ToNumberDecimal(minor);
  }

  /** Anything after the second component, such as a patch level, is ignored. */
  lemma {:induction false} ParseIgnoresRest(major: nat, minor: nat, rest: string)
    ensures ParseVersion(Format(major, minor) + "." + rest) == Version(Some(major), Some(minor))
  {
    var a, b := Decimal(major), Decimal(minor);
    assert Format(major, minor) + "." + rest == a + ['.'] + (b + ['.'] + rest);
    SplitAfterPiece(a, b + ['.'] + rest, '.');
    SplitAfterPiece(b, rest, '.');
    ToNumberDecimal(major);
    ToNumberDecimal(minor);
  }

  /** A bare major version has no minor component, so only the major is compared. */
  lemma {:induction false} ParseBareMajor(major: nat)
    ensures ParseVersion(Decimal(major)) == Version(Some(major), None)
  {
    SplitWithoutSeparator(Decimal(major), '.');
    ToNumberDecimal(major);
  }

  /** The as-written gate on well-formed versions: refused exactly when either component is below its minimum. */
  lemma NaiveGate(major: nat, minor: nat)
    ensures TooOld(Naive, ParseVersion(Format(major, minor))) <==> major < 2 || minor < 17
  {
    ParseFormat(major, minor);
  }

  /** The corrected gate on well-formed versions: refused exactly when the version sorts before 2.17. */
  lemma TupleGate(major: nat, minor: nat)
    ensures TooOld(Tuple, ParseVersion(Format(major, minor))) <==> LexLess((major, minor), (2, 17))
  {
    ParseFormat(major, minor);
  }

  /** The corrected gate is upward closed: a version newer than an accepted one is accepted. */
  lemma TupleGateMonotone(a: (nat, nat), b: (nat, nat))
    requires !TooOld(Tuple, Version(Some(a.0), Some(a.1)))
    requires !LexLess(b, a)
    ensures !TooOld(Tuple, Version(Some(b.0), Some(b.1)))
  {
  }

  /** The as-written gate refuses everything the corrected gate refuses, and more exactly the newer majors with a small minor. */
  lemma NaiveVersusTuple(v: Version)
    ensures TooOld(Tuple, v) ==> TooOld(Naive, v)
    ensures TooOld(Naive, v) && !TooOld(Tuple, v) <==> Below(v.minor, MinMinor) && !Below(v.major, MinMajor) && v.major != Some(MinMajor)
  {
  }

  /** The as-written gate is not upward closed: it accepts 2.17 and refuses the newer 3.0. */
  lemma NaiveGateRefusesNewerMajor()
    ensures !TooOld(Naive, ParseVersion(Format(2, 17)))
    ensures TooOld(Naive, ParseVersion(Format(3, 0)))
    ensures LexLess((2, 17), (3, 0))
    ensures !TooOld(Tuple, ParseVersion(Format(3, 0)))
  {
  }

  /** The gate on the version strings the glibc check is usually discussed with. */
  lemma GateExamples()
    ensures !TooOld(Naive, ParseVersion("2.17"))
    ensures TooOld(Naive, ParseVersion("2.16"))
    ensures TooOld(Naive, ParseVersion("3.0"))
    ensures TooOld(Naive, ParseVersion("1.20"))
    ensures !TooOld(Naive, ParseVersion("2"))
    ensures TooOld(Naive, ParseVersion(""))
  {
    ParseFormat(2, 17);
    ParseFormat(2, 16);
    ParseFormat(3, 0);
    ParseFormat(1, 20);
    ParseBareMajor(2);
    assert Format(2, 17) == "2.17";
    assert Format(2, 16) == "2.16";
    assert Format(3, 0) == "3.0";
    assert Format(1, 20) == "1.20";
  }
}
