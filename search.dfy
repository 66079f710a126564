/** searchData and getFilteredData: the query filter over the registry. */
module Search {
  import opened Text
  import opened Seqs
  import opened Records

  /** The test inside searchData's filter: name and address are compared lower-cased,
      the NIK against the raw query, untrimmed. */
  predicate MatchesQuery(e: Entry, query: string)
    ensures MatchesQuery(e, query) <==>
              (exists k :: OccursAt(Lower(e.nama), Lower(query), k))
              || (exists k :: OccursAt(e.nik, query, k))
              || (exists k :: OccursAt(Lower(e.alamat), Lower(query), k))
  {
    var lowerQuery := Lower(query);
    ContainsIffOccurs(Lower(e.nama), lowerQuery);
    ContainsIffOccurs(e.nik, query);
    ContainsIffOccurs(Lower(e.alamat), lowerQuery);
    Contains(Lower(e.nama), lowerQuery) || Contains(e.nik, query) || Contains(Lower(e.alamat), lowerQuery)
  }

  /** A blank query returns the whole list; any other query returns, in registry order,
      every entry that matches it and nothing else. */
  function SearchData(data: seq<Entry>, query: string): (r: seq<Entry>)
    ensures IsBlank(query) ==> r == data
    ensures !IsBlank(query) ==> IsSubsequence(r, data)
    ensures !IsBlank(query) ==>
              forall e :: multiset(r)[e] == if MatchesQuery(e, query) then multiset(data)[e] else 0
  {
    if Trim(query) == [] then data else Filter(data, e => MatchesQuery(e, query))
  }

  /** `searchQuery ? this.searchData(searchQuery) : this.data`: the short cut for the
      empty query gives what searchData itself would. */
  function GetFilteredData(data: seq<Entry>, searchQuery: string): (r: seq<Entry>)
    ensures r == SearchData(data, searchQuery)
  {
    if searchQuery == [] then data else SearchData(data, searchQuery)
  }

  /** Searching for an entry's full NIK finds that entry. */
  lemma SearchFindsFullNik(data: seq<Entry>, e: Entry)
    requires e in data
    ensures e in SearchData(data, e.nik)
  {
    ContainsItself(e.nik);
    assert MatchesQuery(e, e.nik);
    assert multiset(data)[e] > 0;
  }

  /** Any substring of a digit string is a digit string. */
  lemma ContainedInDigits(hay: string, needle: string)
    requires AllDigits(hay) && Contains(hay, needle)
    ensures AllDigits(needle)
  {
    ContainsIffOccurs(hay, needle);
    var i :| OccursAt(hay, needle, i);
    forall k | 0 <= k < |needle| ensures IsDigit(needle[k]) {
      assert needle[k] == hay[i + k];
    }
  }

  /** Lower-casing leaves digits alone, and makes no digit out of anything else. */
  lemma LowerDigits(s: string)
    ensures AllDigits(s) ==> Lower(s) == s
    ensures AllDigits(Lower(s)) ==> AllDigits(s)
  {
    if AllDigits(Lower(s)) {
      forall k | 0 <= k < |s| ensures IsDigit(s[k]) {
        assert IsDigit(Lower(s)[k]);
      }
    }
  }

  /** Against an entry whose NIK is all digits, a query and its lower-cased form match alike. */
  lemma MatchIgnoresCase(e: Entry, query: string)
    requires AllDigits(e.nik)
    ensures MatchesQuery(e, query) == MatchesQuery(e, Lower(query))
  {
    assert Lower(Lower(query)) == Lower(query);
    LowerDigits(query);
    if Contains(e.nik, query) {
      ContainedInDigits(e.nik, query);
    }
    if Contains(e.nik, Lower(query)) {
      ContainedInDigits(e.nik, Lower(query));
    }
  }

  /** When every stored NIK is a digit string, the search is case-insensitive as a whole:
      a query and its lower-cased form return the same entries. */
  lemma SearchIgnoresCase(data: seq<Entry>, query: string)
    requires forall e :: e in data ==> AllDigits(e.nik)
    ensures SearchData(data, query) == SearchData(data, Lower(query))
  {
    assert IsBlank(query) <==> IsBlank(Lower(query)) by {
      if IsBlank(Lower(query)) {
        forall k | 0 <= k < |query| ensures IsWhitespace(query[k]) {
          assert IsWhitespace(Lower(query)[k]);
        }
      }
    }
    forall e | e in data ensures MatchesQuery(e, query) == MatchesQuery(e, Lower(query)) {
      MatchIgnoresCase(e, query);
    }
    FilterCongruent(data, e => MatchesQuery(e, query), e => MatchesQuery(e, Lower(query)));
  }

  /** A lower-case query finds a name written with capitals: "ali" finds "Ali Baba". */
  lemma SearchFindsNameAnyCase(data: seq<Entry>, e: Entry)
    requires e in data && e.nama == "Ali Baba"
    ensures e in SearchData(data, "ali")
  {
    assert Lower("ali") == "ali";
    assert Lower(e.nama)[..3] == "ali";
    assert MatchesQuery(e, "ali");
    assert !IsBlank("ali") by { assert !IsWhitespace("ali"[0]); }
    assert multiset(data)[e] > 0;
  }
}
