/** Product search: GET /api/products/search runs
    `name LIKE '%' || q || '%' OR description LIKE '%' || q || '%'`.
    `Like` is SQLite's default LIKE (no ESCAPE): `%` matches any run of characters,
    `_` any one character, and letters compare without regard to ASCII case. */
module Catalog {
  import opened Rows

  const AnyRun: char := '%'
  const AnyOne: char := '_'

  /** SQLite's case folding for LIKE: ASCII letters only. */
  function LowerAscii(c: char): char {
    if 'A' <= c <= 'Z' then (c as int + 32) as char else c
  }

  function Like(s: string, p: string): bool
    decreases |s| + |p|
  {
    if p == [] then s == []
    else if p[0] == AnyRun then Like(s, p[1..]) || (s != [] && Like(s[1..], p))
    else s != [] && (p[0] == AnyOne || LowerAscii(s[0]) == LowerAscii(p[0])) && Like(s[1..], p[1..])
  }

  predicate NoWildcards(t: string) {
    forall i :: 0 <= i < |t| ==> t[i] != AnyRun && t[i] != AnyOne
  }

  /** `a` and `b` spell the same text up to ASCII case. */
  predicate EqualIgnoringCase(a: string, b: string) {
    |a| == |b| && forall i :: 0 <= i < |a| ==> LowerAscii(a[i]) == LowerAscii(b[i])
  }

  /** `t` occurs in `s` at position `i`, up to ASCII case. */
  predicate OccursAt(s: string, t: string, i: int) {
    0 <= i && i + |t| <= |s| && EqualIgnoringCase(s[i..i + |t|], t)
  }

  /** `t` occurs somewhere in `s`, up to ASCII case. */
  ghost predicate ContainsIgnoringCase(s: string, t: string) {
    exists i :: OccursAt(s, t, i)
  }

  /** The pattern the handler builds from the search term. */
  function SearchPattern(term: string): string {
    [AnyRun] + term + [AnyRun]
  }

  predicate MatchesTerm(p: Product, term: string) {
    Like(p.name, SearchPattern(term)) || Like(p.description, SearchPattern(term))
  }

  /** GET /api/products/search?q=: an absent or empty term finds nothing; otherwise the
      rows whose name or description matches, unchanged. */
  function Search(products: map<int, Product>, q: Option<string>): (r: map<int, Product>)
    ensures Blank(q) ==> r == map[]
    ensures forall id :: id in r ==> id in products && r[id] == products[id]
    ensures !Blank(q) ==> forall id :: id in products ==> (id in r <==> MatchesTerm(products[id], q.value))
  {
    if Blank(q) then map[]
    else map id | id in products && MatchesTerm(products[id], q.value) :: products[id]
  }

  // ---- LIKE against substring containment ----

  /** A lone `%` matches every string. */
  lemma {:induction false} RunMatchesAll(s: string)
    ensures Like(s, [AnyRun])
  {
    assert [AnyRun][1..] == [];
    if s != [] {
      RunMatchesAll(s[1..]);
    }
  }

  /** A wildcard-free `t` followed by `%` matches exactly the strings that start with `t`. */
  lemma {:induction false} PrefixThenRun(s: string, t: string)
    requires NoWildcards(t)
    ensures Like(s, t + [AnyRun]) <==> |t| <= |s| && EqualIgnoringCase(s[..|t|], t)
  {
    if t == [] {
      assert t + [AnyRun] == [AnyRun];
      RunMatchesAll(s);
      assert EqualIgnoringCase(s[..0], t);
    } else {
      var p := t + [AnyRun];
      assert p[0] == t[0] && p[1..] == t[1..] + [AnyRun];
      assert NoWildcards(t[1..]) by {
        forall i | 0 <= i < |t[1..]| ensures t[1..][i] != AnyRun && t[1..][i] != AnyOne {
          assert t[1..][i] == t[i + 1];
        }
      }
      if s == [] {
      } else {
        PrefixThenRun(s[1..], t[1..]);
        if |t| <= |s| {
          var a, b := s[..|t|], s[1..][..|t| - 1];
          assert a[1..] == b;
          assert EqualIgnoringCase(a, t) <==> LowerAscii(a[0]) == LowerAscii(t[0]) && EqualIgnoringCase(b, t[1..]) by {
            if LowerAscii(a[0]) == LowerAscii(t[0]) && EqualIgnoringCase(b, t[1..]) {
              forall i | 0 <= i < |a| ensures LowerAscii(a[i]) == LowerAscii(t[i]) {
                if i > 0 {
                  assert a[i] == b[i - 1] && t[i] == t[1..][i - 1];
                }
              }
            }
            if EqualIgnoringCase(a, t) {
              forall i | 0 <= i < |b| ensures LowerAscii(b[i]) == LowerAscii(t[1..][i]) {
                assert b[i] == a[i + 1] && t[1..][i] == t[i + 1];
              }
            }
          }
        }
      }
    }
  }

  /** A leading `%` lets the rest of the pattern match any suffix. */
  lemma {:induction false} RunThenPattern(s: string, q: string)
    ensures Like(s, [AnyRun] + q) <==> exists i :: 0 <= i <= |s| && Like(s[i..], q)
  {
    var p := [AnyRun] + q;
    assert p[0] == AnyRun && p[1..] == q;
    if s == [] {
      assert s[0..] == s;
    } else {
      RunThenPattern(s[1..], q);
      if Like(s, p) {
        if Like(s, q) {
          assert s[0..] == s;
        } else {
          var j :| 0 <= j <= |s[1..]| && Like(s[1..][j..], q);
          assert s[1..][j..] == s[j + 1..];
        }
      }
      if exists i :: 0 <= i <= |s| && Like(s[i..], q) {
        var i :| 0 <= i <= |s| && Like(s[i..], q);
        if i == 0 {
          assert s[0..] == s;
        } else {
          assert s[1..][i - 1..] == s[i..];
        }
      }
    }
  }

  /** For a term without wildcards, the handler's LIKE pattern is case-insensitive
      substring search. */
  lemma PatternIsSubstringSearch(s: string, t: string)
    requires NoWildcards(t)
    ensures Like(s, SearchPattern(t)) <==> ContainsIgnoringCase(s, t)
  {
    assert SearchPattern(t) == [AnyRun] + (t + [AnyRun]);
    RunThenPattern(s, t + [AnyRun]);
    forall i | 0 <= i <= |s|
      ensures Like(s[i..], t + [AnyRun]) <==> OccursAt(s, t, i)
    {
      PrefixThenRun(s[i..], t);
      if i + |t| <= |s| {
        assert s[i..][..|t|] == s[i..i + |t|];
      }
    }
    if ContainsIgnoringCase(s, t) {
      var i :| OccursAt(s, t, i);
      assert Like(s[i..], t + [AnyRun]);
    }
  }

  /** Searching a non-empty, wildcard-free term finds exactly the products whose name or
      description contains it, ignoring ASCII case. */
  lemma SearchFindsSubstrings(products: map<int, Product>, term: string, id: int)
    requires term != "" && NoWildcards(term)
    requires id in products
    ensures id in Search(products, Some(term)) <==>
            ContainsIgnoringCase(products[id].name, term) || ContainsIgnoringCase(products[id].description, term)
  {
    PatternIsSubstringSearch(products[id].name, term);
    PatternIsSubstringSearch(products[id].description, term);
  }

  /** In particular a product is found by any piece of its name. */
  lemma SearchFindsByNamePiece(products: map<int, Product>, id: int, i: nat, j: nat)
    requires id in products && i < j <= |products[id].name|
    requires NoWildcards(products[id].name[i..j])
    ensures id in Search(products, Some(products[id].name[i..j]))
  {
    var name, term := products[id].name, products[id].name[i..j];
    assert OccursAt(name, term, i);
    SearchFindsSubstrings(products, term, id);
  }
}
