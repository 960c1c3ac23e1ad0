/** The two string operations the search filter uses: `toLowerCase` and
    `includes`. Lower-casing is modelled as one character map applied to
    every character. */
module Text {

  /** Lower-case one character. Only the ASCII letters A-Z are mapped here;
      every other character is its own lower case in this model. */
  function LowerChar(c: char): (r: char)
    ensures !('A' <= r <= 'Z')
    ensures r != c ==> 'A' <= c <= 'Z' && r as int == c as int + 32
  {
    if 'A' <= c <= 'Z' then (c as int + 32) as char else c
  }

  /** Lower-casing a string, character by character. */
  function Lower(s: string): (r: string)
    ensures |r| == |s|
    ensures forall i :: 0 <= i < |s| ==> r[i] == LowerChar(s[i])
  {
    if s == [] then [] else [LowerChar(s[0])] + Lower(s[1..])
  }

  /** Lower-casing a concatenation lower-cases each part. */
  lemma LowerConcat(a: string, b: string)
    ensures Lower(a + b) == Lower(a) + Lower(b)
  {
  }

  /** Lower-casing twice is lower-casing once. */
  lemma LowerIdempotent(s: string)
    ensures Lower(Lower(s)) == Lower(s)
  {
  }

  /** A string with no ASCII capital letter is its own lower case. */
  lemma LowerNoCapitals(s: string)
    requires forall i :: 0 <= i < |s| ==> !('A' <= s[i] <= 'Z')
    ensures Lower(s) == s
  {
  }

  /** `q` occurs in `s` starting at position `i`. */
  predicate OccursAt(s: string, q: string, i: nat)
  {
    i + |q| <= |s| && s[i..i + |q|] == q
  }

  /** Whether `s` includes `q`: try `q` as a prefix at each position of `s` in turn. */
  function Includes(s: string, q: string): (r: bool)
    ensures q <= s ==> r
    ensures r ==> |q| <= |s|
    decreases |s|
  {
    q <= s || (s != [] && Includes(s[1..], q))
  }

  /** An occurrence in the tail of `s` is an occurrence in `s` one
      position further on. */
  lemma OccursAtTail(s: string, q: string, i: nat)
    requires s != []
    ensures OccursAt(s, q, i + 1) <==> OccursAt(s[1..], q, i)
  {
    if i + 1 + |q| <= |s| {
      assert s[i + 1..i + 1 + |q|] == s[1..][i..i + |q|];
    }
  }

  /** `Includes` holds exactly when `q` occurs as a contiguous substring
      of `s` at some position. */
  lemma {:induction false} IncludesIff(s: string, q: string)
    ensures Includes(s, q) <==> exists i: nat :: OccursAt(s, q, i)
    decreases |s|
  {
    if q <= s {
      assert OccursAt(s, q, 0);
    } else if s == [] {
      forall i: nat ensures !OccursAt(s, q, i) {
      }
    } else {
      IncludesIff(s[1..], q);
      if i: nat :| OccursAt(s[1..], q, i) {
        OccursAtTail(s, q, i);
      }
      forall i: nat | OccursAt(s, q, i) ensures OccursAt(s[1..], q, i - 1) {
        if i == 0 {
          assert false;
        }
        OccursAtTail(s, q, i - 1);
      }
    }
  }

  /** The empty string is included in every string. */
  lemma IncludesEmpty(s: string)
    ensures Includes(s, [])
  {
  }

  /** A query whose first character does not occur in `s` is not included. */
  lemma {:induction false} IncludesFirstChar(s: string, q: string)
    requires q != [] && q[0] !in s
    ensures !Includes(s, q)
    decreases |s|
  {
    if s != [] {
      assert q[0] != s[0];
      IncludesFirstChar(s[1..], q);
    }
  }
}
