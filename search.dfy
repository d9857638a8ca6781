/** Venue and artist search: a record matches a search term when the term
    occurs, ignoring case, in the record's display string "Name City, State";
    the response carries the matching records and their count. */
module Search {
  import opened Records

  /** ASCII case folding of one character: the result is never an upper-case
      letter, and anything that is not one is kept. */
  function LowerChar(c: char): (d: char)
    ensures !('A' <= d <= 'Z')
    ensures !('A' <= c <= 'Z') ==> d == c
    ensures 'A' <= c <= 'Z' ==> d as int == c as int + ('a' as int - 'A' as int)
  {
    if 'A' <= c <= 'Z' then (c as int + 32) as char else c
  }

  /** The case folding ILIKE applies to both sides, letter by letter: no
      upper-case letter is left, every other character stays where it was. */
  function Lower(s: string): (r: string)
    ensures |r| == |s|
    ensures forall i :: 0 <= i < |s| ==> !('A' <= r[i] <= 'Z')
    ensures forall i :: 0 <= i < |s| && !('A' <= s[i] <= 'Z') ==> r[i] == s[i]
    ensures forall i :: 0 <= i < |s| && 'A' <= s[i] <= 'Z' ==> r[i] as int == s[i] as int + ('a' as int - 'A' as int)
  {
    seq(|s|, i requires 0 <= i < |s| => LowerChar(s[i]))
  }

  /** The string the search term is matched against: "Name City, State". */
  function Display(r: Row): (d: string)
    ensures |d| == |r.name| + |r.city| + |r.state| + 3
    ensures d[..|r.name|] == r.name && d[|d| - |r.state|..] == r.state
    ensures d[|r.name|] == ' ' && OccursAt(d, r.city, |r.name| + 1) && OccursAt(d, ", ", |r.name| + 1 + |r.city|)
  {
    r.name + " " + r.city + ", " + r.state
  }

  /** `t` occurs in `s` starting at position `i`. */
  predicate OccursAt(s: string, t: string, i: int) {
    0 <= i && i + |t| <= |s| && s[i..i + |t|] == t
  }

  /** `t` occurs somewhere in `s` as a contiguous substring. */
  predicate Contains(s: string, t: string) {
    (|t| <= |s| && s[..|t|] == t) || (s != [] && Contains(s[1..], t))
  }

  /** The search filter: the term, folded to lower case, is a substring of
      the record's display string, folded to lower case. */
  predicate Matches(term: string, r: Row)
    ensures Matches(term, r) <==> exists i :: OccursAt(Lower(Display(r)), Lower(term), i)
  {
    ContainsIffOccurs(Lower(Display(r)), Lower(term));
    Contains(Lower(Display(r)), Lower(term))
  }

  /** The records that match, in the order the query returned them. */
  function Filter(rows: seq<Row>, term: string): (hits: seq<Row>)
    ensures |hits| <= |rows|
    ensures forall r :: r in hits <==> r in rows && Matches(term, r)
    ensures forall r :: multiset(hits)[r] == if Matches(term, r) then multiset(rows)[r] else 0
  {
    if rows == [] then []
    else
      assert rows == [rows[0]] + rows[1..];
      (if Matches(term, rows[0]) then [rows[0]] else []) + Filter(rows[1..], term)
  }

  datatype Response = Response(count: nat, data: seq<Row>)

  /** The search handler's response: the matching records and how many there are. */
  function SearchRows(rows: seq<Row>, term: string): (r: Response)
    ensures r.count == |r.data| <= |rows|
    ensures forall x :: x in r.data <==> x in rows && Matches(term, x)
    ensures forall x :: multiset(r.data)[x] == if Matches(term, x) then multiset(rows)[x] else 0
  {
    var hits := Filter(rows, term);
    Response(|hits|, hits)
  }

  // ---------------------------------------------------------------------
  // Substrings

  /** An occurrence at a position is found by the recursive substring test. */
  lemma {:induction false} OccursImpliesContains(s: string, t: string, i: nat)
    requires OccursAt(s, t, i)
    ensures Contains(s, t)
  {
    if i > 0 {
      assert s[1..][i - 1..i - 1 + |t|] == s[i..i + |t|];
      OccursImpliesContains(s[1..], t, i - 1);
    }
  }

  /** The recursive substring test finds an actual occurrence. */
  lemma {:induction false} ContainsWitness(s: string, t: string) returns (i: nat)
    requires Contains(s, t)
    ensures OccursAt(s, t, i)
  {
    if |t| <= |s| && s[..|t|] == t {
      i := 0;
    } else {
      var j := ContainsWitness(s[1..], t);
      assert s[j + 1..j + 1 + |t|] == s[1..][j..j + |t|];
      i := j + 1;
    }
  }

  /** The recursive substring test agrees with "occurs at some position". */
  lemma ContainsIffOccurs(s: string, t: string)
    ensures Contains(s, t) <==> exists i :: OccursAt(s, t, i)
  {
    if Contains(s, t) {
      var i := ContainsWitness(s, t);
    }
    if i :| OccursAt(s, t, i) {
      OccursImpliesContains(s, t, i);
    }
  }

  /** A substring of a substring is a substring. */
  lemma ContainsTransitive(s: string, m: string, t: string)
    requires Contains(s, m) && Contains(m, t)
    ensures Contains(s, t)
  {
    var i := ContainsWitness(s, m);
    var j := ContainsWitness(m, t);
    forall k | 0 <= k < |t|
      ensures s[i + j + k] == t[k]
    {
      assert t[k] == m[j..j + |t|][k] == m[j + k];
      assert m[j + k] == s[i..i + |m|][j + k];
    }
    assert s[i + j..i + j + |t|] == t;
    OccursImpliesContains(s, t, i + j);
  }

  /** Every string contains the empty string. */
  lemma ContainsEmpty(s: string)
    ensures Contains(s, "")
  {
    assert s[..0] == "";
  }

  lemma LowerIdempotent(s: string)
    ensures Lower(Lower(s)) == Lower(s)
  {
    assert forall i :: 0 <= i < |s| ==> LowerChar(LowerChar(s[i])) == LowerChar(s[i]);
  }

  // ---------------------------------------------------------------------
  // What search promises

  /** The empty term, the form's default, matches every record. */
  lemma {:induction false} EmptyTermMatchesAll(rows: seq<Row>)
    ensures SearchRows(rows, "").data == rows
    ensures SearchRows(rows, "").count == |rows|
  {
    if rows != [] {
      ContainsEmpty(Lower(Display(rows[0])));
      EmptyTermMatchesAll(rows[1..]);
    }
  }

  /** The case of the term does not matter: a term and its lower-case form
      find the same records. */
  lemma {:induction false} SearchIgnoresTermCase(rows: seq<Row>, term: string)
    ensures SearchRows(rows, Lower(term)) == SearchRows(rows, term)
  {
    LowerIdempotent(term);
    if rows != [] {
      SearchIgnoresTermCase(rows[1..], term);
    }
  }

  /** Narrowing the term never adds results: when the longer term contains
      the shorter one, every record it finds is found by the shorter one. */
  lemma {:induction false} NarrowingTermNarrowsResults(rows: seq<Row>, short: string, long: string)
    requires Contains(Lower(long), Lower(short))
    ensures forall x :: x in SearchRows(rows, long).data ==> x in SearchRows(rows, short).data
    ensures SearchRows(rows, long).count <= SearchRows(rows, short).count
  {
    if rows != [] {
      NarrowingTermNarrowsResults(rows[1..], short, long);
      if Matches(long, rows[0]) {
        ContainsTransitive(Lower(Display(rows[0])), Lower(long), Lower(short));
      }
    }
  }

  // ---------------------------------------------------------------------
  // The examples given beside the handlers

  const MusicalHop := Row(1, "The Musical Hop", "San Francisco", "CA", 0)
  const DuelingPianos := Row(2, "The Dueling Pianos Bar", "New York", "NY", 0)
  const ParkSquare := Row(3, "Park Square Live Music & Coffee", "San Francisco", "CA", 1)

  const GunsNPetals := Row(4, "Guns N Petals", "San Francisco", "CA", 1)
  const MattQuevado := Row(5, "Matt Quevado", "New York", "NY", 0)
  const WildSaxBand := Row(6, "The Wild Sax Band", "San Francisco", "CA", 0)

  /** "Hop" finds "The Musical Hop". */
  lemma HopFindsMusicalHop()
    ensures MusicalHop in SearchRows([MusicalHop, DuelingPianos, ParkSquare], "Hop").data
  {
    FoundAt(MusicalHop, "Hop", 12);
  }

  /** "Music" finds "The Musical Hop" and "Park Square Live Music & Coffee". */
  lemma MusicFindsMusicalHop()
    ensures MusicalHop in SearchRows([MusicalHop, DuelingPianos, ParkSquare], "Music").data
  {
    FoundAt(MusicalHop, "Music", 4);
  }

  lemma MusicFindsParkSquare()
    ensures ParkSquare in SearchRows([MusicalHop, DuelingPianos, ParkSquare], "Music").data
  {
    FoundAt(ParkSquare, "Music", 17);
  }

  /** "A" finds "Guns N Petals", "Matt Quevado" and "The Wild Sax Band". */
  lemma AFindsGunsNPetals()
    ensures GunsNPetals in SearchRows([GunsNPetals, MattQuevado, WildSaxBand], "A").data
  {
    FoundAt(GunsNPetals, "A", 10);
  }

  lemma AFindsMattQuevado()
    ensures MattQuevado in SearchRows([GunsNPetals, MattQuevado, WildSaxBand], "A").data
  {
    FoundAt(MattQuevado, "A", 1);
  }

  lemma AFindsWildSaxBand()
    ensures WildSaxBand in SearchRows([GunsNPetals, MattQuevado, WildSaxBand], "A").data
  {
    FoundAt(WildSaxBand, "A", 10);
  }

  /** "band" finds "The Wild Sax Band". */
  lemma BandFindsWildSaxBand()
    ensures WildSaxBand in SearchRows([GunsNPetals, MattQuevado, WildSaxBand], "band").data
  {
    FoundAt(WildSaxBand, "band", 13);
  }

  /** A record matches when the folded term occurs at a known position. */
  lemma FoundAt(r: Row, term: string, i: nat)
    requires i + |term| <= |Display(r)|
    requires forall k :: 0 <= k < |term| ==> LowerChar(Display(r)[i + k]) == LowerChar(term[k])
    ensures Matches(term, r)
  {
    var s, t := Lower(Display(r)), Lower(term);
    assert forall k :: 0 <= k < |t| ==> s[i..i + |t|][k] == t[k];
    assert s[i..i + |t|] == t;
    OccursImpliesContains(s, t, i);
  }

  // ---------------------------------------------------------------------
  // The filter as the query writes it: an ILIKE pattern '%' + term + '%'

  /** SQL LIKE matching: `%` stands for any run of characters, `_` for any
      one character, every other character for itself. */
  predicate LikeMatch(s: string, pat: string)
    ensures NoWildcards(pat) ==> (LikeMatch(s, pat) <==> s == pat)
    decreases |s| + |pat|
  {
    if pat == [] then s == []
    else if pat[0] == '%' then LikeMatch(s, pat[1..]) || (s != [] && LikeMatch(s[1..], pat))
    else s != [] && (pat[0] == '_' || pat[0] == s[0]) && LikeMatch(s[1..], pat[1..])
  }

  /** The filter of the search query as written, with case folded on both
      sides; it agrees with the substring test whenever the folded term holds
      no wildcard. */
  predicate LikeMatches(term: string, r: Row)
    ensures NoWildcards(Lower(term)) ==> (LikeMatches(term, r) <==> Matches(term, r))
  {
    LikeAgreesOnPlainTerms(Lower(Display(r)), Lower(term));
    LikeMatch(Lower(Display(r)), "%" + Lower(term) + "%")
  }

  predicate NoWildcards(t: string) {
    forall k :: 0 <= k < |t| ==> t[k] != '%' && t[k] != '_'
  }

  lemma {:induction false} LikeAnyTail(u: string)
    ensures LikeMatch(u, "%")
  {
    if u != [] {
      LikeAnyTail(u[1..]);
    }
  }

  lemma {:induction false} LikePlainPrefix(u: string, t: string)
    requires NoWildcards(t)
    ensures LikeMatch(u, t + "%") <==> |t| <= |u| && u[..|t|] == t
  {
    if t == [] {
      assert t + "%" == "%";
      LikeAnyTail(u);
    } else {
      assert (t + "%")[1..] == t[1..] + "%";
      assert t[0] != '%' && t[0] != '_';
      if u != [] {
        LikePlainPrefix(u[1..], t[1..]);
        if |t| <= |u| && u[..|t|] == t {
          assert u[1..][..|t| - 1] == u[..|t|][1..];
        }
        if |t| - 1 <= |u| - 1 && u[1..][..|t| - 1] == t[1..] && u[0] == t[0] {
          assert u[..|t|] == [u[0]] + u[1..][..|t| - 1];
        }
      }
    }
  }

  /** For a term without `%` or `_` the ILIKE filter is exactly the
      case-folded substring test. */
  lemma {:induction false} LikeAgreesOnPlainTerms(s: string, t: string)
    ensures NoWildcards(t) ==> (LikeMatch(s, "%" + t + "%") <==> Contains(s, t))
  {
    if NoWildcards(t) {
      var pat := "%" + t + "%";
      assert pat[0] == '%' && pat[1..] == t + "%";
      LikePlainPrefix(s, t);
      if s != [] {
        LikeAgreesOnPlainTerms(s[1..], t);
      }
    }
  }

  lemma {:induction false} LikeSkip(s: string, q: string, i: nat)
    requires i <= |s| && LikeMatch(s[i..], q)
    ensures LikeMatch(s, "%" + q)
  {
    assert ("%" + q)[1..] == q;
    if i > 0 {
      assert s[1..][i - 1..] == s[i..];
      LikeSkip(s[1..], q, i - 1);
    } else {
      assert s[0..] == s;
    }
  }

  const HipHop := Row(7, "Hip Hop", "LA", "CA", 0)

  /** The query lets the term "H_p" find "Hip Hop"... */
  lemma WildcardTermMatches()
    ensures LikeMatches("H_p", HipHop)
  {
    var d := Display(HipHop);
    assert d == "Hip Hop LA, CA";
    var s := Lower(d);
    assert s[0] == LowerChar('H') == 'h' && s[2] == LowerChar('p') == 'p';
    LikeAnyTail(s[3..]);
    assert s[1..][1..] == s[2..] && s[2..][1..] == s[3..];
    assert "h_p%"[1..] == "_p%" && "_p%"[1..] == "p%" && "p%"[1..] == "%";
    assert LikeMatch(s[2..], "p%");
    assert LikeMatch(s[1..], "_p%");
    assert LikeMatch(s[0..], "h_p%");
    LikeSkip(s, "h_p%", 0);
    assert Lower("H_p") == "h_p";
    assert "%" + "h_p" + "%" == "%" + "h_p%";
  }

  /** ...although its display string "Hip Hop LA, CA" holds no `_` at all,
      so folded to lower case it cannot contain "h_p". */
  lemma WildcardTermIsNoSubstring()
    ensures !Matches("H_p", HipHop)
  {
    var d := Display(HipHop);
    assert d == "Hip Hop LA, CA";
    assert forall j :: 0 <= j < |d| ==> d[j] != '_';
    assert '_' !in Lower(d);
    assert Lower("H_p")[1] == '_';
    if Contains(Lower(d), Lower("H_p")) {
      ContainedCharsOccur(Lower(d), Lower("H_p"));
    }
  }

  /** Every character of a contained string occurs in the containing one. */
  lemma ContainedCharsOccur(s: string, t: string)
    requires Contains(s, t)
    ensures forall k :: 0 <= k < |t| ==> t[k] in s
  {
    var i := ContainsWitness(s, t);
    forall k | 0 <= k < |t|
      ensures t[k] in s
    {
      assert s[i..i + |t|][k] == s[i + k];
    }
  }
}
