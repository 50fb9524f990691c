/** The item-name helpers of the order routes: `normItemName`, the key under
    which item names are compared, and `isVestItem`, which decides whether
    an item falls under the vest rules. */
module ItemName {
  import opened Text

  /** A normalized name: no lower-case letter, white space only as single
      ' ' characters, never two white-space characters in a row and none at
      either end. */
  predicate Normal(s: string) {
    NoLower(s) && SingleSpaced(s) && (s != [] ==> !IsSpace(s[0]) && !IsSpace(s[|s| - 1]))
  }

  /** `normItemName(name)`: upper-case, every run of white space replaced by
      one space, then trimmed. An absent name is the empty string. */
  function NormItemName(name: string): (r: string)
    ensures |r| <= |name|
  {
    Trim(Collapse(Upper(name)))
  }

  /** What `normItemName` returns is normalized: upper-case, no white space
      at either end, none but single spaces inside. */
  lemma NormIsNormal(name: string)
    ensures Normal(NormItemName(name))
  {
    var c := Collapse(Upper(name));
    CollapseSingleSpaced(Upper(name));
    CollapseChars(Upper(name));
    forall i | 0 <= i < |c|
      ensures !IsLower(c[i])
    {
      assert c[i] in c;
    }
    TrimKeepsNormal(c);
  }

  /** Trimming a single-spaced string without lower-case letters gives a
      normalized one. */
  lemma TrimKeepsNormal(c: string)
    requires NoLower(c) && SingleSpaced(c)
    ensures Normal(Trim(c))
  {
    var r := Trim(c);
    var k := |c| - |TrimStart(c)|;
    TrimIsSlice(c);
    TrimEnds(c);
    forall i | 0 <= i < |r|
      ensures r[i] == c[k + i]
      ensures !IsLower(r[i])
      ensures IsSpace(r[i]) ==> r[i] == ' '
    {
      assert r[i] == c[k + i];
    }
    forall i | 0 <= i < |r| - 1
      ensures !(IsSpace(r[i]) && IsSpace(r[i + 1]))
    {
      assert r[i] == c[k + i] && r[i + 1] == c[k + i + 1];
    }
  }

  /** `isVestItem(name)`: the normalized name contains "VEST". */
  predicate IsVestItem(name: string) {
    Contains(NormItemName(name), "VEST")
  }

  /** A normalized name is left as it is by normalizing it again, and only
      normalized names are: `NormItemName` is idempotent and its fixed points
      are exactly the `Normal` strings. */
  lemma NormFixedPoints(s: string)
    ensures NormItemName(s) == s <==> Normal(s)
  {
    NormIsNormal(s);
    if Normal(s) {
      UpperFixed(s);
      CollapseFixed(s);
      TrimFixed(Collapse(Upper(s)));
    }
  }

  lemma NormIdempotent(name: string)
    ensures NormItemName(NormItemName(name)) == NormItemName(name)
  {
    NormIsNormal(name);
    NormFixedPoints(NormItemName(name));
  }

  lemma NoSpaceWords()
    ensures NoSpace("VEST") && NoSpace("MEDIUM")
  {
  }

  /** For a word without white space, white-space handling in `normItemName`
      neither creates nor destroys an occurrence: only the case mapping
      matters. */
  lemma ContainsNorm(name: string, w: string)
    requires w != [] && NoSpace(w)
    ensures Contains(NormItemName(name), w) <==> Contains(Upper(name), w)
  {
    var c := Collapse(Upper(name));
    ContainsTrimEnd(TrimStart(c), w);
    ContainsTrimStart(c, w);
    ContainsCollapse(Upper(name), w);
  }

  /** `isVestItem` agrees with the store's case-insensitive `%VEST%` match:
      the cart and the persisted rows are classified alike. */
  lemma VestItemIsVestMatch(name: string)
    ensures IsVestItem(name) <==> Contains(Upper(name), "VEST")
  {
    NoSpaceWords();
    ContainsNorm(name, "VEST");
  }

  /** A name that normalizes to exactly "VEST" is a vest item, and its
      upper-cased text never contains "MEDIUM". */
  lemma ExactVestHasNoMedium(name: string)
    requires NormItemName(name) == "VEST"
    ensures IsVestItem(name)
    ensures !Contains(Upper(name), "MEDIUM")
  {
    NoSpaceWords();
    assert StartsWith("VEST", "VEST");
    ContainsNorm(name, "MEDIUM");
    if Contains("VEST", "MEDIUM") {
      ContainsLength("VEST", "MEDIUM");
    }
  }
}
