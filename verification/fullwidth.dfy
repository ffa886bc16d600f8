/**
 * The `fullwidth` command (commands/fullwidth.py): every character of a fixed
 * ASCII set is moved by 0xFEE0 into the Unicode "Halfwidth and Fullwidth Forms"
 * block; every other character is copied as it is.
 */
module Fullwidth {

  /** The distance from an ASCII character to its fullwidth form. */
  const Shift: int := 0xFEE0

  // The `Fullwidth.supported` literal, written as the contiguous code-point
  // runs it is made of; their concatenation is exactly that literal.
  const Digits: string := "0123456789"
  const Lower: string := "abcdefghijklmnopqrstuvwxyz"
  const Upper: string := "ABCDEFGHIJKLMNOPQRSTUVWXYZ"
  const Symbols1: string := "!\"#$%&"
  const Symbols2: string := "()*+,-./"
  const Symbols3: string := ":;<=>?@"
  const Symbols4: string := "[\\]^_`"
  const Symbols5: string := "{|}~"

  /** The characters the command converts. */
  const Supported: string := Digits + Lower + Upper + Symbols1 + Symbols2 + Symbols3 + Symbols4 + Symbols5

  /** Printable ASCII without the space and without the apostrophe. */
  predicate PrintableNoQuote(c: char) {
    0x21 <= c as int <= 0x7E && c != '\''
  }

  /** The part of the fullwidth block that conversion can produce. */
  predicate InFullwidthImage(c: char) {
    0xFF01 <= c as int <= 0xFF5E && c as int != 0xFF07
  }

  /** `s` lists the consecutive code points `lo`, `lo + 1`, ... */
  ghost predicate IsRun(s: string, lo: int) {
    forall k :: 0 <= k < |s| ==> s[k] as int == lo + k
  }

  lemma RunMembership(s: string, lo: int, c: char)
    requires IsRun(s, lo)
    ensures c in s <==> lo <= c as int < lo + |s|
  {
    if lo <= c as int < lo + |s| {
      assert s[c as int - lo] == c;
    }
  }

  /** The alphanumeric runs of `Supported`, with their first code points. */
  lemma AlphanumericRuns()
    ensures IsRun(Digits, 0x30) && IsRun(Lower, 0x61) && IsRun(Upper, 0x41)
  {
  }

  /** The punctuation runs of `Supported`, with their first code points. */
  lemma SymbolRuns()
    ensures IsRun(Symbols1, 0x21) && IsRun(Symbols2, 0x28) && IsRun(Symbols3, 0x3A)
    ensures IsRun(Symbols4, 0x5B) && IsRun(Symbols5, 0x7B)
  {
  }

  /** The supported set is exactly printable ASCII minus space and apostrophe. */
  lemma SupportedIsPrintableNoQuote(c: char)
    ensures c in Supported <==> PrintableNoQuote(c)
  {
    AlphanumericRuns();
    SymbolRuns();
    RunMembership(Digits, 0x30, c);
    RunMembership(Lower, 0x61, c);
    RunMembership(Upper, 0x41, c);
    RunMembership(Symbols1, 0x21, c);
    RunMembership(Symbols2, 0x28, c);
    RunMembership(Symbols3, 0x3A, c);
    RunMembership(Symbols4, 0x5B, c);
    RunMembership(Symbols5, 0x7B, c);
  }

  /** One element of the list comprehension: `chr(0xFEE0 + ord(i)) if i in supported else i`. */
  function ConvertChar(c: char): (r: char)
    ensures PrintableNoQuote(c) ==> r as int == c as int + Shift && InFullwidthImage(r)
    ensures !PrintableNoQuote(c) ==> r == c
  {
    SupportedIsPrintableNoQuote(c);
    if c in Supported then (c as int + Shift) as char else c
  }

  /** The text the command answers with for the argument text `s`. */
  function Convert(s: string): (r: string)
    ensures |r| == |s|
    ensures forall i :: 0 <= i < |s| ==> r[i] == ConvertChar(s[i])
  {
    if s == [] then [] else [ConvertChar(s[0])] + Convert(s[1..])
  }

  /**
   * Position i of the answer: a supported character is shifted by 0xFEE0 and
   * lands in U+FF01..U+FF5E (never U+FF07, the apostrophe's image); space, the
   * apostrophe and every non-ASCII character are copied unchanged.
   */
  lemma ConvertPosition(s: string, i: int)
    requires 0 <= i < |s|
    ensures s[i] in Supported ==> Convert(s)[i] as int == s[i] as int + Shift
    ensures s[i] !in Supported ==> Convert(s)[i] == s[i]
    ensures Convert(s)[i] != s[i] <==> PrintableNoQuote(s[i])
    ensures Convert(s)[i] != s[i] ==> InFullwidthImage(Convert(s)[i])
  {
    SupportedIsPrintableNoQuote(s[i]);
  }

  /** No output of the shift is itself supported, so converting twice changes nothing more. */
  lemma ConvertIdempotent(s: string)
    ensures Convert(Convert(s)) == Convert(s)
  {
    var r := Convert(s);
    forall i | 0 <= i < |s|
      ensures Convert(r)[i] == r[i]
    {
      SupportedIsPrintableNoQuote(s[i]);
      SupportedIsPrintableNoQuote(r[i]);
    }
  }

  /** Output position i depends on input position i alone. */
  lemma ConvertIsLocal(a: string, b: string)
    ensures Convert(a + b) == Convert(a) + Convert(b)
  {
    var ab := a + b;
    forall i | 0 <= i < |ab|
      ensures Convert(ab)[i] == (Convert(a) + Convert(b))[i]
    {
      SupportedIsPrintableNoQuote(ab[i]);
      if i < |a| {
        SupportedIsPrintableNoQuote(a[i]);
      } else {
        SupportedIsPrintableNoQuote(b[i - |a|]);
      }
    }
  }

  /** One position of `Revert`. */
  function RevertChar(c: char): (r: char)
    ensures InFullwidthImage(c) ==> r as int == c as int - Shift && PrintableNoQuote(r)
    ensures !InFullwidthImage(c) ==> r == c
  {
    if InFullwidthImage(c) then (c as int - Shift) as char else c
  }

  /** The inverse map: moves U+FF01..U+FF5E (except U+FF07) back by 0xFEE0. */
  function Revert(s: string): (r: string)
    ensures |r| == |s|
    ensures forall i :: 0 <= i < |s| ==> r[i] == RevertChar(s[i])
  {
    if s == [] then [] else [RevertChar(s[0])] + Revert(s[1..])
  }

  lemma RevertConvertChar(c: char)
    requires !InFullwidthImage(c)
    ensures RevertChar(ConvertChar(c)) == c
  {
  }

  /** Conversion is undone by `Revert` for any text that holds no fullwidth form already. */
  lemma {:induction false} RevertConvert(s: string)
    requires forall i :: 0 <= i < |s| ==> !InFullwidthImage(s[i])
    ensures Revert(Convert(s)) == s
  {
    var r := Convert(s);
    var back := Revert(r);
    forall i | 0 <= i < |s|
      ensures back[i] == s[i]
    {
      RevertConvertChar(s[i]);
    }
  }
}
