/**
 * The validator the input checks write into, and the string helpers they use.
 * A validator is modelled as the set of field keys that received an error:
 * `Check(ok, key, msg)` records `key` when `ok` is false, and the message text is not modelled.
 */
module Validator {

  /** The keys of the fields that failed a check. */
  type Errors = set<string>

  /** `v.Check(ok, key, msg)`. */
  function Check(v: Errors, ok: bool, key: string): Errors
  {
    if ok then v else v + {key}
  }

  /** Number of bytes of the UTF-8 encoding of one code point. */
  function Utf8Len(c: char): nat
  {
    if c as int < 0x80 then 1
    else if c as int < 0x800 then 2
    else if c as int < 0x10000 then 3
    else 4
  }

  /** Go's `len(s)`: the length in bytes of the UTF-8 encoding of `s`. */
  function ByteLen(s: string): (n: nat)
    ensures n >= |s|
    ensures (forall i :: 0 <= i < |s| ==> s[i] as int < 0x80) ==> n == |s|
  {
    if s == [] then 0
    else
      assert forall i :: 0 < i < |s| ==> s[i] == s[1..][i - 1];
      Utf8Len(s[0]) + ByteLen(s[1..])
  }

  /** Go's `unicode.IsSpace`. */
  predicate IsSpace(c: char)
  {
    var n := c as int;
    n == 0x09 || n == 0x0A || n == 0x0B || n == 0x0C || n == 0x0D || n == 0x20
    || n == 0x85 || n == 0xA0 || n == 0x1680 || 0x2000 <= n <= 0x200A
    || n == 0x2028 || n == 0x2029 || n == 0x202F || n == 0x205F || n == 0x3000
  }

  /** A string that holds only white space (or nothing). */
  predicate Blank(s: string)
  {
    forall i :: 0 <= i < |s| ==> IsSpace(s[i])
  }

  function TrimLeft(s: string): string
  {
    if s != [] && IsSpace(s[0]) then TrimLeft(s[1..]) else s
  }

  function TrimRight(s: string): string
  {
    if s != [] && IsSpace(s[|s| - 1]) then TrimRight(s[..|s| - 1]) else s
  }

  /** Go's `strings.TrimSpace`. */
  function TrimSpace(s: string): string
  {
    TrimRight(TrimLeft(s))
  }

  lemma {:induction false} TrimLeftSpec(s: string)
    ensures TrimLeft(s) == [] <==> Blank(s)
    ensures TrimLeft(s) != [] ==> !IsSpace(TrimLeft(s)[0])
  {
    if s != [] && IsSpace(s[0]) {
      TrimLeftSpec(s[1..]);
      assert forall i :: 0 < i < |s| ==> s[i] == s[1..][i - 1];
    }
  }

  lemma {:induction false} TrimRightSpec(s: string)
    ensures TrimRight(s) == [] <==> Blank(s)
  {
    if s != [] && IsSpace(s[|s| - 1]) {
      TrimRightSpec(s[..|s| - 1]);
      assert forall i :: 0 <= i < |s| - 1 ==> s[i] == s[..|s| - 1][i];
    }
  }

  /**
   * The `required` check of every validator, `len(strings.TrimSpace(s)) > 0`,
   * holds exactly when `s` has a character that is not white space.
   */
  lemma RequiredMeansNotBlank(s: string)
    ensures ByteLen(TrimSpace(s)) > 0 <==> !Blank(s)
  {
    TrimLeftSpec(s);
    TrimRightSpec(TrimLeft(s));
  }

  /** The rules most text fields share: required (not blank) and `least` to `most` bytes long. */
  predicate TextOk(s: string, least: nat, most: nat)
  {
    ByteLen(TrimSpace(s)) > 0 && least <= ByteLen(s) <= most
  }

  /** The `required`, `at most` and `at least` checks of one field, which all record the same key. */
  function CheckText(v: Errors, s: string, least: nat, most: nat, key: string): (w: Errors)
    ensures w == if TextOk(s, least, most) then v else v + {key}
  {
    Check(Check(Check(v, ByteLen(TrimSpace(s)) > 0, key), ByteLen(s) <= most, key), ByteLen(s) >= least, key)
  }

  /** A text field passes exactly when it is not all white space and its byte length is in range. */
  lemma TextOkMeaning(s: string, least: nat, most: nat)
    ensures TextOk(s, least, most) <==> !Blank(s) && least <= ByteLen(s) <= most
  {
    RequiredMeansNotBlank(s);
  }
}
