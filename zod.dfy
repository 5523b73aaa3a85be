/**
 * The request-body checks the routes delegate to zod schemas. Lengths count
 * characters of the Dafny string.
 */
module Zod {
  import opened Text

  predicate IsLetter(c: char) {
    'A' <= c <= 'Z' || 'a' <= c <= 'z'
  }

  predicate IsAlnum(c: char) {
    IsLetter(c) || IsDigit(c)
  }

  /** The characters zod accepts in the local part of an address. */
  predicate IsLocalChar(c: char) {
    IsAlnum(c) || c in "_'+-."
  }

  /** The characters allowed at the end of the local part. */
  predicate IsLocalEnd(c: char) {
    IsAlnum(c) || c in "_+-"
  }

  predicate NoDoubleDot(s: string) {
    forall i :: 0 <= i < |s| - 1 ==> !(s[i] == '.' && s[i + 1] == '.')
  }

  predicate LocalPartOk(local: string) {
    && |local| >= 1
    && local[0] != '.'
    && (forall i :: 0 <= i < |local| ==> IsLocalChar(local[i]))
    && IsLocalEnd(local[|local| - 1])
  }

  /** A domain part before the top-level one: alphanumeric start, then alphanumerics or '-'. */
  predicate LabelOk(part: string) {
    && |part| >= 1
    && IsAlnum(part[0])
    && forall i :: 0 <= i < |part| ==> IsAlnum(part[i]) || part[i] == '-'
  }

  /** The top-level part: at least two letters. */
  predicate TopLabelOk(part: string) {
    |part| >= 2 && forall i :: 0 <= i < |part| ==> IsLetter(part[i])
  }

  predicate DomainOk(domain: string) {
    var labels := Split(domain, '.');
    && |labels| >= 2
    && (forall k :: 0 <= k < |labels| - 1 ==> LabelOk(labels[k]))
    && TopLabelOk(labels[|labels| - 1])
  }

  /**
   * `z.string().email()`: zod's address pattern, case-insensitively,
   * local@part.part...tld with no ".." anywhere.
   */
  predicate IsEmail(s: string) {
    var parts := Split(s, '@');
    && |parts| == 2
    && NoDoubleDot(s)
    && LocalPartOk(parts[0])
    && DomainOk(parts[1])
  }

  /** `.min(n)` on a string. */
  predicate MinLen(s: string, n: nat) {
    |s| >= n
  }

  /** `.regex(/^[0-9]{10}$/)`. */
  predicate TenDigits(s: string) {
    |s| == 10 && AllDigits(s)
  }
}
