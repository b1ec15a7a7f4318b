/**
 * The six regular expressions of pkg/validator/regex.go as string predicates.
 * Each unanchored pattern is a search for one character of a class; the anchored
 * ones are checked over the whole string. Go strings are `seq<char>`, one char per code point.
 */
module Regex {

  /** The bracket expressions used by the patterns. */
  datatype CharClass =
    | Lower        // [a-z]
    | Upper        // [A-Z]
    | Digit        // [0-9]
    | Special      // [!@#$%^&*]
    | Alnum        // [a-zA-Z0-9]
    | Letter       // [a-zA-Z]
    | EmailLocal   // [a-zA-Z0-9._%-]
    | EmailDomain  // [a-zA-Z0-9.-]

  predicate InClass(c: char, k: CharClass)
  {
    var lower := 'a' <= c <= 'z';
    var upper := 'A' <= c <= 'Z';
    var digit := '0' <= c <= '9';
    match k
    case Lower => lower
    case Upper => upper
    case Digit => digit
    case Special => c in "!@#$%^&*"
    case Alnum => lower || upper || digit
    case Letter => lower || upper
    case EmailLocal => lower || upper || digit || c in "._%-"
    case EmailDomain => lower || upper || digit || c in ".-"
  }

  /** Unanchored search for a one-character pattern, scanning left to right as the matcher does. */
  function Search(s: string, k: CharClass): (found: bool)
    ensures found <==> exists i :: 0 <= i < |s| && InClass(s[i], k)
  {
    if s == [] then false
    else if InClass(s[0], k) then true
    else
      assert forall i :: 0 < i < |s| ==> s[i] == s[1..][i - 1];
      Search(s[1..], k)
  }

  /** Whether every character of `s` is in the class (the body of an anchored `^[...]*$`). */
  function AllIn(s: string, k: CharClass): (all: bool)
    ensures all <==> forall i :: 0 <= i < |s| ==> InClass(s[i], k)
  {
    if s == [] then true
    else if !InClass(s[0], k) then false
    else
      assert forall i :: 0 < i < |s| ==> s[i] == s[1..][i - 1];
      AllIn(s[1..], k)
  }

  /** LowerRX, `[a-z]`. */
  predicate LowerRX(s: string) { Search(s, Lower) }

  /** UpperRX, `[A-Z]`. */
  predicate UpperRX(s: string) { Search(s, Upper) }

  /** NumberRX, `[0-9]`. */
  predicate NumberRX(s: string) { Search(s, Digit) }

  /** SpecialRX, `[!@#$%^&*]`. */
  predicate SpecialRX(s: string) { Search(s, Special) }

  /** AlphanumRX, `^[a-zA-Z0-9]+$`. */
  predicate AlphanumRX(s: string) { |s| > 0 && AllIn(s, Alnum) }

  /**
   * One repetition of the group of EmailRX: `[a-zA-Z0-9._%-]+@[a-zA-Z0-9.-]+\.[a-zA-Z]{2,6}`.
   * `at` is the position of the `@`, `dot` that of the escaped dot before the top-level domain.
   */
  predicate EmailUnit(u: string)
  {
    exists at, dot :: 0 < at && at + 1 < dot && dot + 3 <= |u| <= dot + 7 && EmailSplit(u, at, dot)
  }

  predicate EmailSplit(u: string, at: int, dot: int)
    requires 0 < at && at + 1 < dot && dot + 3 <= |u|
  {
    && AllIn(u[..at], EmailLocal)
    && u[at] == '@'
    && AllIn(u[at + 1..dot], EmailDomain)
    && u[dot] == '.'
    && AllIn(u[dot + 1..], Letter)
  }

  /** EmailRX, `^(unit)*$`: the whole string is zero or more email units written back to back. */
  predicate EmailRX(s: string)
    decreases |s|
  {
    s == [] || exists k {:trigger EmailUnit(s[..k])} :: 0 < k <= |s| && EmailUnit(s[..k]) && EmailRX(s[k..])
  }

  /** A string matches AlphanumRX iff it is non-empty and all ASCII letters and digits. */
  lemma AlphanumRXMeaning(s: string)
    ensures AlphanumRX(s) <==> |s| > 0 && forall i :: 0 <= i < |s| ==>
      ('a' <= s[i] <= 'z' || 'A' <= s[i] <= 'Z' || '0' <= s[i] <= '9')
  {
  }

  /** The password character-class patterns hold iff the string has a character of the class. */
  lemma CharClassPatternsMeaning(s: string)
    ensures LowerRX(s) <==> exists i :: 0 <= i < |s| && 'a' <= s[i] <= 'z'
    ensures UpperRX(s) <==> exists i :: 0 <= i < |s| && 'A' <= s[i] <= 'Z'
    ensures NumberRX(s) <==> exists i :: 0 <= i < |s| && '0' <= s[i] <= '9'
    ensures SpecialRX(s) <==> exists i :: 0 <= i < |s| && s[i] in "!@#$%^&*"
  {
  }

  /** The group of EmailRX is starred, so the empty string is a valid "email". */
  lemma EmailRXAcceptsEmpty()
    ensures EmailRX("")
  {
  }

  /** An ordinary address is accepted. */
  lemma EmailRXAcceptsAddress()
    ensures EmailRX("jo@mail.com")
  {
    var s := "jo@mail.com";
    assert AllIn(s[..2], EmailLocal) by { assert s[..2] == "jo"; }
    assert AllIn(s[3..7], EmailDomain) by { assert s[3..7] == "mail"; }
    assert AllIn(s[8..], Letter) by { assert s[8..] == "com"; }
    assert EmailSplit(s, 2, 7);
    assert s[..|s|] == s;
    assert EmailUnit(s[..|s|]);
    assert s[|s|..] == [];
  }

  /** One email unit in front of an accepted string is accepted. */
  lemma EmailRXCons(u: string, rest: string)
    requires EmailUnit(u) && EmailRX(rest)
    ensures EmailRX(u + rest)
  {
    var s := u + rest;
    assert s[..|u|] == u && s[|u|..] == rest;
    var at, dot :| 0 < at && at + 1 < dot && dot + 3 <= |u| <= dot + 7 && EmailSplit(u, at, dot);
    assert 0 < |u| <= |s|;
  }

  lemma SplitConcat(a: string, b: string, k: nat)
    requires k <= |a|
    ensures a + b == a[..k] + (a[k..] + b)
  {
    assert a[..k] + a[k..] == a;
  }

  /** Because of the star, two addresses glued together are accepted as one. */
  lemma {:induction false} EmailRXConcat(a: string, b: string)
    requires EmailRX(a) && EmailRX(b)
    ensures EmailRX(a + b)
    decreases |a|
  {
    if a == [] {
      assert a + b == b;
    } else {
      var k :| 0 < k <= |a| && EmailUnit(a[..k]) && EmailRX(a[k..]);
      EmailRXConcat(a[k..], b);
      SplitConcat(a, b, k);
      EmailRXCons(a[..k], a[k..] + b);
    }
  }

  /** A non-empty string accepted by EmailRX contains an `@`. */
  lemma EmailRXNeedsAt(s: string)
    requires EmailRX(s) && s != []
    ensures '@' in s
  {
    var k :| 0 < k <= |s| && EmailUnit(s[..k]) && EmailRX(s[k..]);
    var at, dot :| 0 < at && at + 1 < dot && dot + 3 <= k <= dot + 7 && EmailSplit(s[..k], at, dot);
    assert s[at] == s[..k][at];
  }
}
