/** `extract_brand`: the brand tag of a product name, found with
    `re.search(r"【(.*?)】", name)` and stripped of surrounding whitespace. */
module Brand {
  import opened Cells
  import opened Whitespace

  const Open: char := '【'
  const Close: char := '】'

  /** The lazy group `(.*?)` opened after position `i` ends at the bracket at
      `j`: `.` crosses neither a newline nor, being lazy, an earlier `】`. */
  predicate ClosesAt(s: string, i: int, j: int) {
    && 0 <= i < j < |s|
    && s[j] == Close
    && forall m :: i < m < j ==> s[m] != Close && s[m] != '\n'
  }

  /** The pattern matches the slice `s[i..j + 1]`. */
  predicate IsMatch(s: string, i: int, j: int) {
    ClosesAt(s, i, j) && s[i] == Open
  }

  /** The match `re.search` reports: the one that starts leftmost. */
  ghost predicate Leftmost(s: string, i: int, j: int) {
    IsMatch(s, i, j) && forall a, b :: IsMatch(s, a, b) ==> i <= a
  }

  /** The lazy group, opened at `i`, scanned forward from `k`. */
  function CloseAfter(s: string, i: nat, k: nat): (r: Option<nat>)
    requires i < k <= |s|
    requires forall m :: i < m < k ==> s[m] != Close && s[m] != '\n'
    ensures r.Some? ==> ClosesAt(s, i, r.value)
    ensures r.None? ==> forall j :: !ClosesAt(s, i, j)
    decreases |s| - k
  {
    if k == |s| then None
    else if s[k] == Close then Some(k)
    else if s[k] == '\n' then None
    else CloseAfter(s, i, k + 1)
  }

  /** `re.search`: try each start position from `i` on, left to right. */
  function SearchFrom(s: string, i: nat): (r: Option<(nat, nat)>)
    requires i <= |s|
    ensures r.Some? ==> i <= r.value.0 && IsMatch(s, r.value.0, r.value.1)
    ensures r.Some? ==> forall a, b :: i <= a < r.value.0 ==> !IsMatch(s, a, b)
    ensures r.None? ==> forall a, b :: i <= a ==> !IsMatch(s, a, b)
    decreases |s| - i
  {
    if i == |s| then None
    else if s[i] == Open then
      match CloseAfter(s, i, i + 1)
      case Some(j) => Some((i, j))
      case None => SearchFrom(s, i + 1)
    else SearchFrom(s, i + 1)
  }

  /** `extract_brand(name)`: `None` for a cell that is not a string or holds no
      tag; otherwise the stripped text of the leftmost tag, which may be "". */
  function ExtractBrand(name: Option<string>): (r: Option<string>)
    ensures name.None? ==> r.None?
    ensures name.Some? ==> (r.Some? <==> exists a, b :: IsMatch(name.value, a, b))
    ensures r.Some? ==> exists a, b :: Leftmost(name.value, a, b) && r.value == Strip(name.value[a + 1..b])
    ensures r.Some? ==> Close !in r.value && '\n' !in r.value
  {
    match name
    case None => None
    case Some(s) =>
      match SearchFrom(s, 0)
      case None => None
      case Some((i, j)) =>
        assert Leftmost(s, i, j);
        GroupText(s, i, j);
        Some(Strip(s[i + 1..j]))
  }

  /** The stripped group holds neither a `】` nor a newline. */
  lemma GroupText(s: string, i: int, j: int)
    requires ClosesAt(s, i, j)
    ensures Close !in Strip(s[i + 1..j]) && '\n' !in Strip(s[i + 1..j])
  {
    var group := s[i + 1..j];
    assert forall t :: 0 <= t < |group| ==> group[t] == s[i + 1 + t];
  }

  /** The closing bracket of a lazy group is the first one after it opens. */
  lemma ClosesAtUnique(s: string, i: int, j1: int, j2: int)
    requires ClosesAt(s, i, j1) && ClosesAt(s, i, j2)
    ensures j1 == j2
  {
  }

  /** A `【` followed on the same line by a later `】` is enough for a tag:
      the first `】` after it closes the group. */
  lemma {:induction false} BracketsOnOneLine(s: string, a: int, b: int)
    requires 0 <= a < b < |s| && s[a] == Open && s[b] == Close
    requires forall m :: a < m < b ==> s[m] != '\n'
    ensures ExtractBrand(Some(s)).Some?
  {
    var j := b;
    while exists m :: a < m < j && s[m] == Close
      invariant a < j <= b && s[j] == Close
      decreases j
    {
      var m :| a < m < j && s[m] == Close;
      j := m;
    }
    assert IsMatch(s, a, j);
  }

  /** A name with no `【` has no brand. */
  lemma NoOpenNoBrand(s: string)
    requires Open !in s
    ensures ExtractBrand(Some(s)) == None
  {
    forall a, b | IsMatch(s, a, b) ensures false {
    }
  }

  /** When no `【` comes before a match, that match gives the brand. */
  lemma FirstTag(s: string, i: int, j: int)
    requires IsMatch(s, i, j)
    requires forall a :: 0 <= a < i ==> s[a] != Open
    ensures ExtractBrand(Some(s)) == Some(Strip(s[i + 1..j]))
  {
    var r := ExtractBrand(Some(s));
    var a, b :| Leftmost(s, a, b) && r.value == Strip(s[a + 1..b]);
    assert a == i;
    ClosesAtUnique(s, i, b, j);
  }

  /** The tag after an untagged prefix: its text, stripped, is the brand,
      whatever follows the first `】` (the group is lazy). */
  lemma LeadingTag(p: string, x: string, rest: string)
    requires Open !in p
    requires Close !in x && '\n' !in x
    ensures ExtractBrand(Some(p + [Open] + x + [Close] + rest)) == Some(Strip(x))
  {
    var s := p + [Open] + x + [Close] + rest;
    var i, j := |p|, |p| + 1 + |x|;
    assert s[i] == Open && s[j] == Close;
    forall m | i < m < j ensures s[m] != Close && s[m] != '\n' {
      assert s[m] == x[m - i - 1];
    }
    forall a | 0 <= a < i ensures s[a] != Open {
      assert s[a] == p[a];
    }
    assert s[i + 1..j] == x;
    FirstTag(s, i, j);
  }

  /** A tag whose text has no surrounding whitespace is the brand verbatim. */
  lemma TrimmedTag(p: string, x: string, rest: string)
    requires Open !in p
    requires Close !in x && '\n' !in x
    requires x == [] || (!IsSpace(x[0]) && !IsSpace(x[|x| - 1]))
    ensures ExtractBrand(Some(p + [Open] + x + [Close] + rest)) == Some(x)
  {
    LeadingTag(p, x, rest);
    StripTrimmed(x);
  }

  /** Empty brackets give the empty brand, not a missing one. */
  lemma EmptyTag()
    ensures ExtractBrand(Some("【】")) == Some("")
  {
    LeadingTag("", "", "");
    assert [] + [Open] + [] + [Close] + [] == "【】";
    StripTrimmed("");
  }

  /** The group stops at the first `】` and the brand is stripped. */
  lemma LazyStrippedTag()
    ensures ExtractBrand(Some("【 Acme 】Widget】")) == Some("Acme")
  {
    var s := "【 Acme 】Widget】";
    assert s[0] == Open && s[7] == Close;
    assert s[1..7] == " Acme ";
    FirstTag(s, 0, 7);
    StripExample();
  }

  /** A newline inside the brackets prevents the match. */
  lemma NewlineInTag()
    ensures ExtractBrand(Some("【a\nb】")) == None
  {
    var s := "【a\nb】";
    assert |s| == 5 && s[1] != Open && s[2] == '\n' && s[3] != Open && s[4] != Open;
    assert forall a :: 0 <= a < |s| && s[a] == Open ==> a == 0;
  }
}
