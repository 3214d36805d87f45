/** The search filter of the directory: a case-insensitive substring match
    over a company's name, location and industry. */
module Search {
  import opened Text
  import opened Companies

  /** The predicate passed to `companies.filter`; `term` is already lowered. */
  predicate Matches(c: Company, term: string) {
    || Includes(ToLower(c.name), term)
    || Includes(ToLower(c.location), term)
    || Includes(ToLower(c.industry), term)
  }

  /** A company matches exactly when the term occurs at some index of its
      lowered name, its lowered location or its lowered industry. */
  lemma MatchesIff(c: Company, term: string)
    ensures Matches(c, term) <==>
      || (exists i :: OccursAt(ToLower(c.name), term, i))
      || (exists i :: OccursAt(ToLower(c.location), term, i))
      || (exists i :: OccursAt(ToLower(c.industry), term, i))
  {
    IncludesIff(ToLower(c.name), term);
    IncludesIff(ToLower(c.location), term);
    IncludesIff(ToLower(c.industry), term);
  }

  /** `Array.prototype.filter` with `Matches`. */
  function Matching(cs: seq<Company>, term: string): (r: seq<Company>)
    ensures |r| <= |cs|
    ensures forall c :: c in r ==> Matches(c, term)
  {
    if cs == [] then []
    else (if Matches(cs[0], term) then [cs[0]] else []) + Matching(cs[1..], term)
  }

  /** `a` is `b` with some elements removed and the rest in their order. */
  ghost predicate IsSubsequence<T>(a: seq<T>, b: seq<T>)
    decreases |b|
  {
    if a == [] then true
    else if b == [] then false
    else if a[0] == b[0] then IsSubsequence(a[1..], b[1..])
    else IsSubsequence(a, b[1..])
  }

  /** The filtered list keeps the catalogue's order. */
  lemma {:induction false} MatchingIsSubsequence(cs: seq<Company>, term: string)
    ensures IsSubsequence(Matching(cs, term), cs)
  {
    if cs != [] {
      MatchingIsSubsequence(cs[1..], term);
      var rest := Matching(cs[1..], term);
      if Matches(cs[0], term) {
        assert ([cs[0]] + rest)[1..] == rest;
      } else {
        assert Matching(cs, term) == rest;
        assert rest != [] ==> rest[0] in rest && rest[0] != cs[0];
      }
    }
  }

  /** A company is in the filtered list exactly when it is in the catalogue
      and matches the term. */
  lemma {:induction false} MatchingMembership(cs: seq<Company>, term: string, c: Company)
    ensures c in Matching(cs, term) <==> c in cs && Matches(c, term)
  {
    if cs != [] {
      MatchingMembership(cs[1..], term, c);
      assert cs == [cs[0]] + cs[1..];
    }
  }

  /** Each matching company appears as often as in the catalogue, every other
      company not at all. */
  lemma {:induction false} MatchingCount(cs: seq<Company>, term: string, c: Company)
    ensures multiset(Matching(cs, term))[c] == if Matches(c, term) then multiset(cs)[c] else 0
  {
    if cs != [] {
      MatchingCount(cs[1..], term, c);
      assert cs == [cs[0]] + cs[1..];
    }
  }

  /** Filtering a concatenation filters each part. */
  lemma {:induction false} MatchingConcat(a: seq<Company>, b: seq<Company>, term: string)
    ensures Matching(a + b, term) == Matching(a, term) + Matching(b, term)
  {
    if a != [] {
      MatchingConcat(a[1..], b, term);
      assert (a + b)[1..] == a[1..] + b;
    } else {
      assert a + b == b;
    }
  }

  /** The empty search term keeps the whole catalogue. */
  lemma {:induction false} MatchingEmptyTerm(cs: seq<Company>)
    ensures Matching(cs, "") == cs
  {
    if cs != [] {
      IncludesEmpty(ToLower(cs[0].name));
      MatchingEmptyTerm(cs[1..]);
      assert cs == [cs[0]] + cs[1..];
    }
  }

  /** Filtering the filtered list again by the same term changes nothing. */
  lemma {:induction false} MatchingIdempotent(cs: seq<Company>, term: string)
    ensures Matching(Matching(cs, term), term) == Matching(cs, term)
  {
    if cs != [] {
      MatchingIdempotent(cs[1..], term);
      var rest := Matching(cs[1..], term);
      if Matches(cs[0], term) {
        assert Matching(cs, term) == [cs[0]] + rest;
        assert ([cs[0]] + rest)[1..] == rest;
      } else {
        assert Matching(cs, term) == rest;
      }
    }
  }
}
