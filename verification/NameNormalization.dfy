/** What normalising a name does to its characters. */
module NameNormalization {
  import opened Names

  /**
   * The normalised name, character by character: a letter, then letters, digits, underscores and
   * dots, no two dots side by side, with capital letters made small and nothing else changed;
   * the empty text for every other name.
   */
  lemma NormalizedExactly(s: string)
    ensures var n := Normalize(s);
            if s != "" && ('a' <= s[0] <= 'z' || 'A' <= s[0] <= 'Z') &&
              (forall i :: 0 <= i < |s| ==>
                 'a' <= s[i] <= 'z' || 'A' <= s[i] <= 'Z' || '0' <= s[i] <= '9' || s[i] == '_' || s[i] == '.') &&
              (forall i :: 0 < i < |s| ==> s[i - 1] != '.' || s[i] != '.')
            then
              |n| == |s| && forall i :: 0 <= i < |s| ==>
                if 'A' <= s[i] <= 'Z' then n[i] as int == s[i] as int + 32 else n[i] == s[i]
            else n == ""
  {
    assert Acceptable(s) <==>
           s != "" && ('a' <= s[0] <= 'z' || 'A' <= s[0] <= 'Z') &&
           (forall i :: 0 <= i < |s| ==>
              'a' <= s[i] <= 'z' || 'A' <= s[i] <= 'Z' || '0' <= s[i] <= '9' || s[i] == '_' || s[i] == '.') &&
           (forall i :: 0 < i < |s| ==> s[i - 1] != '.' || s[i] != '.');
  }

  /** A normalised name has no capital letter. */
  lemma NoCapitals(s: string)
    ensures forall i :: 0 <= i < |Normalize(s)| ==> Normalize(s)[i] < 'A' || 'Z' < Normalize(s)[i]
  {
    NormalizedExactly(s);
    hide Normalize;
  }

  /** Two names that differ in the case of letters only are normalised alike. */
  lemma CaseIsIgnored(a: string, b: string)
    requires |a| == |b|
    requires forall i :: 0 <= i < |a| ==>
               a[i] == b[i] ||
               ('A' <= a[i] <= 'Z' && b[i] as int == a[i] as int + 32) ||
               ('A' <= b[i] <= 'Z' && a[i] as int == b[i] as int + 32)
    ensures Normalize(a) == Normalize(b)
  {
    NormalizedExactly(a);
    NormalizedExactly(b);
    hide Normalize;
  }

  /** Normalising a normalised name changes nothing more. */
  lemma NormalizedOnce(s: string)
    ensures Normalize(Normalize(s)) == Normalize(s)
  {
    NormalizedExactly(s);
    NormalizedExactly(Normalize(s));
    hide Normalize;
  }
}
