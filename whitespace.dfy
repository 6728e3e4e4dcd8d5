/** Python's `str.strip()` with no argument: remove leading and trailing
    characters for which `str.isspace()` holds. */
module Whitespace {

  /** The characters Python's `str.isspace()` accepts: tab to carriage return,
      the four information separators, space, NEL, no-break space, the Ogham
      space mark, the en quad to hair space range, line and paragraph
      separators, the narrow no-break space, the medium mathematical space and
      the ideographic space. */
  predicate IsSpace(c: char) {
    || ('\t' <= c <= '\r')
    || ('\U{1C}' <= c <= '\U{1F}')
    || c == ' '
    || c == '\U{85}'
    || c == '\U{A0}'
    || c == '\U{1680}'
    || ('\U{2000}' <= c <= '\U{200A}')
    || c == '\U{2028}'
    || c == '\U{2029}'
    || c == '\U{202F}'
    || c == '\U{205F}'
    || c == '\U{3000}'
  }

  /** The number of whitespace characters at the start of `s`. */
  function LeadingSpaces(s: string): (n: nat)
    ensures n <= |s|
    ensures forall k :: 0 <= k < n ==> IsSpace(s[k])
    ensures n < |s| ==> !IsSpace(s[n])
  {
    if s == [] || !IsSpace(s[0]) then 0 else 1 + LeadingSpaces(s[1..])
  }

  /** The number of whitespace characters at the end of `s`. */
  function TrailingSpaces(s: string): (n: nat)
    ensures n <= |s|
    ensures forall k :: |s| - n <= k < |s| ==> IsSpace(s[k])
    ensures n < |s| ==> !IsSpace(s[|s| - n - 1])
  {
    if s == [] || !IsSpace(s[|s| - 1]) then 0 else 1 + TrailingSpaces(s[..|s| - 1])
  }

  /** Cutting `s` down to `s[i..j]` removes whitespace only, and leaves
      text that neither begins nor ends with whitespace. */
  predicate StripAt(s: string, i: int, j: int) {
    && 0 <= i <= j <= |s|
    && (forall k :: 0 <= k < i ==> IsSpace(s[k]))
    && (forall k :: j <= k < |s| ==> IsSpace(s[k]))
    && (i < j ==> !IsSpace(s[i]) && !IsSpace(s[j - 1]))
  }

  /** `r` is what stripping `s` leaves. */
  ghost predicate Stripped(s: string, r: string) {
    exists i, j :: StripAt(s, i, j) && r == s[i..j]
  }

  function Strip(s: string): (r: string)
    ensures Stripped(s, r)
    ensures forall c :: c in r ==> c in s
  {
    var i := LeadingSpaces(s);
    var j := if i == |s| then |s| else |s| - TrailingSpaces(s);
    assert StripAt(s, i, j);
    assert forall c :: c in s[i..j] ==> c in s by {
      forall c | c in s[i..j] ensures c in s {
        var t :| 0 <= t < j - i && s[i..j][t] == c;
        assert s[i + t] == c;
      }
    }
    s[i..j]
  }

  lemma StripAtUnique(s: string, i1: int, j1: int, i2: int, j2: int)
    requires StripAt(s, i1, j1) && StripAt(s, i2, j2)
    ensures s[i1..j1] == s[i2..j2]
  {
    if i1 < j1 && i2 < j2 {
      assert i1 == i2 && j1 == j2;
    }
  }

  /** `Stripped` pins down one result, so `Strip` is the only function meeting it. */
  lemma StrippedUnique(s: string, r1: string, r2: string)
    requires Stripped(s, r1) && Stripped(s, r2)
    ensures r1 == r2
  {
    var i1, j1 :| StripAt(s, i1, j1) && r1 == s[i1..j1];
    var i2, j2 :| StripAt(s, i2, j2) && r2 == s[i2..j2];
    StripAtUnique(s, i1, j1, i2, j2);
  }

  /** Stripping leaves text without surrounding whitespace unchanged. */
  lemma {:induction false} StripTrimmed(s: string)
    requires s == [] || (!IsSpace(s[0]) && !IsSpace(s[|s| - 1]))
    ensures Strip(s) == s
  {
    assert StripAt(s, 0, |s|) && s[0..|s|] == s;
    StrippedUnique(s, Strip(s), s);
  }

  /** Stripping is idempotent. */
  lemma StripIdempotent(s: string)
    ensures Strip(Strip(s)) == Strip(s)
  {
    var r := Strip(s);
    var i, j :| StripAt(s, i, j) && r == s[i..j];
    StripTrimmed(r);
  }

  /** Spaces on both sides go, the inner text stays. */
  lemma StripExample()
    ensures Strip(" Acme ") == "Acme"
  {
    var t := " Acme ";
    assert t[1..5] == "Acme";
    assert StripAt(t, 1, 5);
    StrippedUnique(t, Strip(t), "Acme");
  }
}
