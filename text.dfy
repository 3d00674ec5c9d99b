/**
 * Case-insensitive substring search on toy names. The search key is read as a literal
 * string; letter case is folded over ASCII.
 */
module Text {

  /** ASCII lower-casing: `A`..`Z` become `a`..`z`, every other character is kept. */
  function Lower(c: char): char {
    if 'A' <= c <= 'Z' then (c as int - 'A' as int + 'a' as int) as char else c
  }

  /** The string with every character lower-cased. */
  function Fold(s: string): (r: string)
    ensures |r| == |s|
    ensures forall i :: 0 <= i < |s| ==> r[i] == Lower(s[i])
  {
    if s == [] then [] else [Lower(s[0])] + Fold(s[1..])
  }

  predicate IsPrefix(p: string, s: string) {
    |p| <= |s| && s[..|p|] == p
  }

  /** `p` occurs in `s`: it is a prefix of `s` or occurs in the tail of `s`. */
  predicate Occurs(p: string, s: string)
    decreases |s|
  {
    IsPrefix(p, s) || (|s| > 0 && Occurs(p, s[1..]))
  }

  /** The name search: the folded key occurs in the folded text. */
  predicate ContainsIgnoringCase(text: string, key: string) {
    Occurs(Fold(key), Fold(text))
  }

  /** `p` starts at position `i` of `s`. */
  ghost predicate OccursAt(p: string, s: string, i: int) {
    0 <= i <= |s| && IsPrefix(p, s[i..])
  }

  /**
   * Reference meaning of a case-insensitive match of the literal `key` at offset `i` of
   * `text`: every character of the key equals the text character under it, up to case.
   */
  ghost predicate MatchesAt(text: string, key: string, i: int) {
    0 <= i && i + |key| <= |text| &&
    forall j :: 0 <= j < |key| ==> Lower(text[i + j]) == Lower(key[j])
  }

  /** The recursive search finds exactly the positions where `p` starts. */
  lemma {:induction false} OccursIff(p: string, s: string)
    ensures Occurs(p, s) <==> exists i :: OccursAt(p, s, i)
    decreases |s|
  {
    if Occurs(p, s) {
      if IsPrefix(p, s) {
        assert s[0..] == s;
        assert OccursAt(p, s, 0);
      } else {
        OccursIff(p, s[1..]);
        var i :| OccursAt(p, s[1..], i);
        assert s[1..][i..] == s[i + 1..];
        assert OccursAt(p, s, i + 1);
      }
    }
    if exists i :: OccursAt(p, s, i) {
      var i :| OccursAt(p, s, i);
      if i == 0 {
        assert s[0..] == s;
      } else {
        assert s[1..][i - 1..] == s[i..];
        assert OccursAt(p, s[1..], i - 1);
        OccursIff(p, s[1..]);
      }
    }
  }

  /** A folded prefix at `i` is the same thing as a case-insensitive match at `i`. */
  lemma FoldedOccursAt(text: string, key: string, i: int)
    ensures OccursAt(Fold(key), Fold(text), i) <==> MatchesAt(text, key, i)
  {
    var ft, fk := Fold(text), Fold(key);
    if OccursAt(fk, ft, i) {
      forall j | 0 <= j < |key| ensures Lower(text[i + j]) == Lower(key[j]) {
        assert ft[i..][..|fk|][j] == fk[j];
      }
    }
    if MatchesAt(text, key, i) {
      assert ft[i..][..|fk|] == fk;
    }
  }

  /**
   * The folded search is sound and complete with respect to the reference meaning: it
   * holds exactly when the key matches the text, up to case, at some offset.
   */
  lemma ContainsIgnoringCaseIff(text: string, key: string)
    ensures ContainsIgnoringCase(text, key) <==> exists i :: MatchesAt(text, key, i)
  {
    OccursIff(Fold(key), Fold(text));
    forall i ensures OccursAt(Fold(key), Fold(text), i) <==> MatchesAt(text, key, i) {
      FoldedOccursAt(text, key, i);
    }
  }

  /** The empty key is contained in every name. */
  lemma EmptyKeyMatchesAll(text: string)
    ensures ContainsIgnoringCase(text, "")
  {
    assert Fold("") == "";
  }

  /** The search scenario: "red" finds "Red Car", "blue" does not. */
  lemma RedCarSearch()
    ensures ContainsIgnoringCase("Red Car", "red")
    ensures !ContainsIgnoringCase("Red Car", "blue")
  {
    ContainsIgnoringCaseIff("Red Car", "red");
    assert MatchesAt("Red Car", "red", 0);
    ContainsIgnoringCaseIff("Red Car", "blue");
    assert !exists i :: MatchesAt("Red Car", "blue", i);
  }
}
