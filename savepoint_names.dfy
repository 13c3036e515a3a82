/** Savepoint names built by BeginTxx: "sp_" followed by the generator's
    hex string with every '-' replaced by '_' (a SQL savepoint name must
    start with a letter and may not contain a dash). The generator itself
    is foreign and appears here only as its output string `hex`. */
module SavepointNames {

  /** strings.Replace(hex, "-", "_", -1): every dash becomes an underscore,
      every other character is kept in place. */
  function ReplaceDashes(s: string): (r: string)
    ensures |r| == |s|
    ensures forall i :: 0 <= i < |s| ==> r[i] == (if s[i] == '-' then '_' else s[i])
    ensures '-' !in r
  {
    if s == [] then []
    else [if s[0] == '-' then '_' else s[0]] + ReplaceDashes(s[1..])
  }

  /** The savepoint name pushed by one BeginTxx for generator output `hex`. */
  function SavepointName(hex: string): (r: string)
    ensures |r| == 3 + |hex|
    ensures r[..3] == "sp_"
    ensures '-' !in r
    ensures forall i :: 0 <= i < |hex| && hex[i] != '-' ==> r[3 + i] == hex[i]
  {
    "sp_" + ReplaceDashes(hex)
  }

  predicate IsLetter(c: char) { 'a' <= c <= 'z' || 'A' <= c <= 'Z' }

  predicate IsDigit(c: char) { '0' <= c <= '9' }

  predicate IsHexDigit(c: char) { IsDigit(c) || 'a' <= c <= 'f' || 'A' <= c <= 'F' }

  /** A bare SQL identifier usable as a savepoint name. */
  predicate IsSavepointIdentifier(s: string)
  {
    |s| > 0 && IsLetter(s[0]) &&
    forall i :: 0 <= i < |s| ==> IsLetter(s[i]) || IsDigit(s[i]) || s[i] == '_'
  }

  /** Whatever hex-and-dash string the generator returns (the UUID layout
      of Hex128), the sanitised name is a valid bare identifier. */
  lemma HexNameIsIdentifier(hex: string)
    requires forall i :: 0 <= i < |hex| ==> IsHexDigit(hex[i]) || hex[i] == '-'
    ensures IsSavepointIdentifier(SavepointName(hex))
  {
    var r := SavepointName(hex);
    assert r[0] == 's';
    forall i | 0 <= i < |r|
      ensures IsLetter(r[i]) || IsDigit(r[i]) || r[i] == '_'
    {
      if i >= 3 {
        assert r[i] == ReplaceDashes(hex)[i - 3];
      }
    }
  }

  /** Sanitising loses no information on generator output (which never holds
      an underscore): distinct generator strings give distinct savepoint
      names, so the generator's uniqueness carries over to the stack. */
  lemma {:induction false} SavepointNameInjective(a: string, b: string)
    requires '_' !in a && '_' !in b
    requires SavepointName(a) == SavepointName(b)
    ensures a == b
  {
    var r := SavepointName(a);
    assert |a| == |b|;
    forall i | 0 <= i < |a|
      ensures a[i] == b[i]
    {
      assert a[i] in a && b[i] in b;
      assert ReplaceDashes(a)[i] == r[3 + i] == ReplaceDashes(b)[i];
    }
  }
}
