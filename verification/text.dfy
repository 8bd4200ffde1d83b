/** Character classes and string length as the signup schema of
    routes/user.js sees them. Strings are sequences of Unicode scalar values. */
module Text {

  /** A character matched by the regular-expression class `[A-Z]`. */
  predicate IsUpper(c: char) { 'A' <= c <= 'Z' }

  /** A character matched by `[a-z]`. */
  predicate IsLower(c: char) { 'a' <= c <= 'z' }

  /** A character matched by `[0-9]`. */
  predicate IsDigit(c: char) { '0' <= c <= '9' }

  /** A character matched by `[^A-Za-z0-9]`. */
  predicate IsSpecial(c: char) { !IsUpper(c) && !IsLower(c) && !IsDigit(c) }

  /** `/[A-Z]/.test(s)` */
  predicate HasUpper(s: string) { exists i :: 0 <= i < |s| && IsUpper(s[i]) }

  /** `/[a-z]/.test(s)` */
  predicate HasLower(s: string) { exists i :: 0 <= i < |s| && IsLower(s[i]) }

  /** `/[^A-Za-z0-9]/.test(s)`. Without the `u` flag the regular expression
      looks at UTF-16 code units; both halves of a surrogate pair lie outside
      `[A-Za-z0-9]`, so testing scalar values gives the same answer. */
  predicate HasSpecial(s: string) { exists i :: 0 <= i < |s| && IsSpecial(s[i]) }

  /** True for a character outside the Basic Multilingual Plane, which
      JavaScript stores as a surrogate pair. */
  predicate IsAstral(c: char) { c as int >= 0x1_0000 }

  /** JavaScript's `length` of a string: the number of UTF-16 code units, so an
      astral character counts twice. This is what zod's `min` and `max` on a
      string compare against. */
  function Utf16Length(s: string): (n: nat)
    ensures |s| <= n <= 2 * |s|
    ensures n == |s| <==> forall i :: 0 <= i < |s| ==> !IsAstral(s[i])
    ensures n == 2 * |s| <==> forall i :: 0 <= i < |s| ==> IsAstral(s[i])
  {
    if |s| == 0 then 0
    else (if IsAstral(s[0]) then 2 else 1) + Utf16Length(s[1..])
  }

  /** A standalone executable form of the three regular-expression tests of
      the password refinements: one pass over the string that answers all
      three, shown equal to the predicates the schema is stated with. */
  method ScanClasses(s: string) returns (upper: bool, lower: bool, special: bool)
    ensures upper == HasUpper(s)
    ensures lower == HasLower(s)
    ensures special == HasSpecial(s)
  {
    upper, lower, special := false, false, false;
    var i := 0;
    while i < |s|
      invariant 0 <= i <= |s|
      invariant upper <==> exists j :: 0 <= j < i && IsUpper(s[j])
      invariant lower <==> exists j :: 0 <= j < i && IsLower(s[j])
      invariant special <==> exists j :: 0 <= j < i && IsSpecial(s[j])
    {
      var c := s[i];
      if IsUpper(c) {
        upper := true;
      } else if IsLower(c) {
        lower := true;
      } else if !IsDigit(c) {
        special := true;
      }
      i := i + 1;
    }
  }
}
