/**
  Verification of Telegram Mini App `initData` (`verifyTelegramAuth`).

  The query string is taken as its already-decoded (name, value) pairs, in
  input order.  Every `hash` pair is removed; the rest are sorted by name with
  the engine's stable sort under `localeCompare`, rendered as `name=value` and
  joined with "\n" (the data-check string).  The request is accepted exactly
  when the first `hash` value equals the lower-case hex of
  HMAC(HMAC("WebAppData", token), data-check string), HMAC being HMAC-SHA-256
  as in section 2 of RFC 2104, left uninterpreted here.
*/
module TelegramAuth {
  import opened Wrappers
  import opened Hex

  /** One decoded pair of the query string. */
  datatype Param = Param(name: string, value: string)

  /** Library and cryptographic primitives the server calls, left uninterpreted. */
  datatype Platform = Platform(
    parseQuery: string -> seq<Param>,                    // URLSearchParams: decoded pairs, in order
    utf8: string -> seq<byte>,                           // string to bytes, as Hmac.update and Hash.update take it
    hmacSha256: (seq<byte>, seq<byte>) -> seq<byte>,     // (key, message) to digest
    sha256: seq<byte> -> seq<byte>,
    localeLe: (string, string) -> bool,                  // a.localeCompare(b) <= 0
    userIdOf: seq<Param> -> string)                      // JSON.parse(params.get('user')).id; "" when absent or falsy

  const HashName: string := "hash"
  const SecretLabel: string := "WebAppData"

  /** Transitivity of le at one triple of names. */
  ghost predicate TransitiveAt(le: (string, string) -> bool, a: string, b: string, c: string)
  {
    le(a, b) && le(b, c) ==> le(a, c)
  }

  /** A comparator that ranks any two names and does so consistently.  Transitivity
      is only used where a proof names the triple (`TransitiveAt`), which keeps the
      solver from chaining it on its own. */
  ghost predicate TotalPreorder(le: (string, string) -> bool)
  {
    && (forall a, b :: le(a, b) || le(b, a))
    && (forall a, b, c {:trigger TransitiveAt(le, a, b, c)} :: TransitiveAt(le, a, b, c))
  }

  /** A total preorder that ranks no two distinct names as equal. */
  ghost predicate TotalOrder(le: (string, string) -> bool)
  {
    TotalPreorder(le) && forall a, b :: le(a, b) && le(b, a) ==> a == b
  }

  /** No two pairs share a name. */
  ghost predicate DistinctNames(ps: seq<Param>)
  {
    forall i, j :: 0 <= i < j < |ps| ==> ps[i].name != ps[j].name
  }

  // ---------------------------------------------------------------------------
  // params.get('hash') and params.delete('hash')

  /** `params.get(name)`: the value of the first pair with that name. */
  function FirstValue(ps: seq<Param>, name: string): (r: Option<string>)
    ensures r.None? <==> forall p :: p in ps ==> p.name != name
    ensures r.Some? ==> exists i :: 0 <= i < |ps| && ps[i] == Param(name, r.value)
                                   && forall j :: 0 <= j < i ==> ps[j].name != name
  {
    if ps == [] then None
    else if ps[0].name == name then Some(ps[0].value)
    else
      var r := FirstValue(ps[1..], name);
      if r.Some? then
        ghost var i :| 0 <= i < |ps[1..]| && ps[1..][i] == Param(name, r.value)
                      && forall j :: 0 <= j < i ==> ps[1..][j].name != name;
        assert ps[i + 1] == Param(name, r.value);
        r
      else r
  }

  /** With distinct names, the value `get` returns is the one paired with that name. */
  lemma FirstValueOfDistinct(ps: seq<Param>, p: Param)
    requires DistinctNames(ps) && p in ps
    ensures FirstValue(ps, p.name) == Some(p.value)
  {
    var r := FirstValue(ps, p.name);
    var i :| 0 <= i < |ps| && ps[i] == Param(p.name, r.value);
    var k :| 0 <= k < |ps| && ps[k] == p;
    assert i == k;
  }

  /** `params.delete('hash')`: every `hash` pair removed, the others kept in order. */
  function WithoutHash(ps: seq<Param>): (r: seq<Param>)
    ensures forall p :: p in r <==> p in ps && p.name != HashName
  {
    if ps == [] then [] else (if ps[0].name == HashName then [] else [ps[0]]) + WithoutHash(ps[1..])
  }

  lemma {:induction false} WithoutHashDistinct(ps: seq<Param>)
    requires DistinctNames(ps)
    ensures DistinctNames(WithoutHash(ps))
  {
    if ps != [] {
      WithoutHashDistinct(ps[1..]);
      var rest := WithoutHash(ps[1..]);
      forall q | q in rest ensures q.name != ps[0].name {
        var j :| 0 <= j < |ps[1..]| && ps[1..][j] == q;
        assert ps[j + 1] == q;
      }
    }
  }

  /** Deleting `hash` keeps every other pair exactly as often as it occurred. */
  lemma {:induction false} WithoutHashCounts(ps: seq<Param>)
    ensures forall p :: multiset(WithoutHash(ps))[p] == if p.name != HashName then multiset(ps)[p] else 0
  {
    if ps != [] {
      WithoutHashCounts(ps[1..]);
      assert ps == [ps[0]] + ps[1..];
    }
  }

  /** Deleting `hash` keeps the other pairs in their order: it works pair by pair
      and distributes over concatenation. */
  lemma {:induction false} WithoutHashAppend(a: seq<Param>, b: seq<Param>)
    ensures WithoutHash(a + b) == WithoutHash(a) + WithoutHash(b)
  {
    if a == [] {
      assert a + b == b;
    } else {
      assert (a + b)[1..] == a[1..] + b;
      WithoutHashAppend(a[1..], b);
    }
  }

  // ---------------------------------------------------------------------------
  // The stable sort by name

  ghost predicate Equivalent(le: (string, string) -> bool, a: string, b: string)
  {
    le(a, b) && le(b, a)
  }

  /** Every pair ranks no later than every pair after it. */
  ghost predicate SortedByName(s: seq<Param>, le: (string, string) -> bool)
  {
    forall i, j :: 0 <= i < j < |s| ==> le(s[i].name, s[j].name)
  }

  /** Inserts x after every pair that ranks no later than it, so that among pairs
      ranked alike the later-inserted one comes last. */
  function InsertByName(x: Param, s: seq<Param>, le: (string, string) -> bool): (r: seq<Param>)
    ensures |r| == |s| + 1
  {
    if s == [] then [x]
    else if le(s[0].name, x.name) then [s[0]] + InsertByName(x, s[1..], le)
    else [x] + s
  }

  /** Insertion adds x and loses nothing. */
  lemma {:induction false} InsertPermutes(x: Param, s: seq<Param>, le: (string, string) -> bool)
    ensures multiset(InsertByName(x, s, le)) == multiset(s) + multiset{x}
  {
    if s != [] && le(s[0].name, x.name) {
      InsertPermutes(x, s[1..], le);
      assert s == [s[0]] + s[1..];
    }
  }

  /** The sort of `Array.prototype.sort` with comparator `localeCompare`, written as
      an insertion sort: the last pair is inserted into the sorted rest. */
  function SortByName(ps: seq<Param>, le: (string, string) -> bool): (r: seq<Param>)
    ensures |r| == |ps|
  {
    if ps == [] then []
    else InsertByName(ps[|ps| - 1], SortByName(ps[..|ps| - 1], le), le)
  }

  /** The sort is a permutation of its input. */
  lemma {:induction false} SortPermutes(ps: seq<Param>, le: (string, string) -> bool)
    ensures multiset(SortByName(ps, le)) == multiset(ps)
  {
    if ps != [] {
      var init, last := ps[..|ps| - 1], ps[|ps| - 1];
      SortPermutes(init, le);
      InsertPermutes(last, SortByName(init, le), le);
      assert ps == init + [last];
      assert multiset(ps) == multiset(init) + multiset{last};
    }
  }

  lemma {:induction false} InsertSorted(x: Param, s: seq<Param>, le: (string, string) -> bool)
    requires TotalPreorder(le) && SortedByName(s, le)
    ensures SortedByName(InsertByName(x, s, le), le)
  {
    if s != [] && !le(s[0].name, x.name) {
      forall j | 0 <= j < |s| ensures le(x.name, s[j].name) {
        assert TransitiveAt(le, x.name, s[0].name, s[j].name);
      }
    } else if s != [] {
      InsertSorted(x, s[1..], le);
      var tail := InsertByName(x, s[1..], le);
      InsertPermutes(x, s[1..], le);
      forall q | q in tail ensures le(s[0].name, q.name) {
        assert q in multiset(tail);
        if q != x {
          assert q in s[1..];
        }
      }
    }
  }

  /** The sort orders the pairs by name. */
  lemma {:induction false} SortSorted(ps: seq<Param>, le: (string, string) -> bool)
    requires TotalPreorder(le)
    ensures SortedByName(SortByName(ps, le), le)
  {
    if ps != [] {
      SortSorted(ps[..|ps| - 1], le);
      InsertSorted(ps[|ps| - 1], SortByName(ps[..|ps| - 1], le), le);
    }
  }

  /** The pairs of s whose names rank alike with k, in their order in s. */
  ghost function SameRank(s: seq<Param>, k: string, le: (string, string) -> bool): seq<Param>
  {
    if s == [] then [] else (if Equivalent(le, s[0].name, k) then [s[0]] else []) + SameRank(s[1..], k, le)
  }

  lemma {:induction false} SameRankAppend(s: seq<Param>, x: Param, k: string, le: (string, string) -> bool)
    ensures SameRank(s + [x], k, le) == SameRank(s, k, le) + (if Equivalent(le, x.name, k) then [x] else [])
  {
    if s != [] {
      assert (s + [x])[1..] == s[1..] + [x];
      SameRankAppend(s[1..], x, k, le);
    }
  }

  lemma {:induction false} SameRankNone(s: seq<Param>, k: string, le: (string, string) -> bool)
    requires forall q :: q in s ==> !Equivalent(le, q.name, k)
    ensures SameRank(s, k, le) == []
  {
    if s != [] {
      SameRankNone(s[1..], k, le);
    }
  }

  lemma {:induction false} SameRankMembers(s: seq<Param>, k: string, le: (string, string) -> bool, q: Param)
    ensures q in SameRank(s, k, le) <==> q in s && Equivalent(le, q.name, k)
  {
    if s != [] {
      SameRankMembers(s[1..], k, le, q);
      assert s == [s[0]] + s[1..];
    }
  }

  lemma {:induction false} InsertSameRank(x: Param, s: seq<Param>, k: string, le: (string, string) -> bool)
    requires TotalPreorder(le) && SortedByName(s, le)
    ensures SameRank(InsertByName(x, s, le), k, le)
         == SameRank(s, k, le) + (if Equivalent(le, x.name, k) then [x] else [])
  {
    if s == [] {
    } else if le(s[0].name, x.name) {
      SortedTail(s, le);
      InsertSameRank(x, s[1..], k, le);
      InsertBehindSameRank(x, s, k, le);
    } else {
      if Equivalent(le, x.name, k) {
        NoneRankedAbove(x, s, k, le);
      }
      InsertInFrontSameRank(x, s, k, le);
    }
  }

  /** The step of InsertSameRank where x goes after the head of s. */
  lemma InsertBehindSameRank(x: Param, s: seq<Param>, k: string, le: (string, string) -> bool)
    requires s != [] && le(s[0].name, x.name)
    requires SameRank(InsertByName(x, s[1..], le), k, le)
          == SameRank(s[1..], k, le) + (if Equivalent(le, x.name, k) then [x] else [])
    ensures SameRank(InsertByName(x, s, le), k, le)
         == SameRank(s, k, le) + (if Equivalent(le, x.name, k) then [x] else [])
  {
    var t := InsertByName(x, s[1..], le);
    var u := [s[0]] + t;
    var head := if Equivalent(le, s[0].name, k) then [s[0]] else [];
    var tail := SameRank(s[1..], k, le);
    var added := if Equivalent(le, x.name, k) then [x] else [];
    assert InsertByName(x, s, le) == u;
    assert u[0] == s[0] && u[1..] == t;
    assert SameRank(u, k, le) == head + SameRank(t, k, le);
    assert head + (tail + added) == (head + tail) + added;
  }

  /** The step of InsertSameRank where x goes in front of s. */
  lemma InsertInFrontSameRank(x: Param, s: seq<Param>, k: string, le: (string, string) -> bool)
    requires s != [] && !le(s[0].name, x.name)
    requires Equivalent(le, x.name, k) ==> SameRank(s, k, le) == []
    ensures SameRank(InsertByName(x, s, le), k, le)
         == SameRank(s, k, le) + (if Equivalent(le, x.name, k) then [x] else [])
  {
    assert InsertByName(x, s, le) == [x] + s;
    assert ([x] + s)[1..] == s;
  }

  lemma SortedTail(s: seq<Param>, le: (string, string) -> bool)
    requires s != [] && SortedByName(s, le)
    ensures SortedByName(s[1..], le)
  {
    forall i, j | 0 <= i < j < |s| - 1 ensures le(s[1..][i].name, s[1..][j].name) {
      assert le(s[i + 1].name, s[j + 1].name);
    }
  }

  /** When x goes in front of a sorted s, no pair of s ranks alike with x. */
  lemma NoneRankedAbove(x: Param, s: seq<Param>, k: string, le: (string, string) -> bool)
    requires TotalPreorder(le) && SortedByName(s, le)
    requires s != [] && !le(s[0].name, x.name) && Equivalent(le, x.name, k)
    ensures SameRank(s, k, le) == []
  {
    forall q | q in s ensures !Equivalent(le, q.name, k) {
      var j :| 0 <= j < |s| && s[j] == q;
      if j > 0 { assert le(s[0].name, s[j].name); }
      assert TransitiveAt(le, s[0].name, q.name, k);
      assert TransitiveAt(le, s[0].name, k, x.name);
    }
    SameRankNone(s, k, le);
  }

  /** One step of the stability proof: if sorting the prefix kept the rank-k pairs
      in order, and inserting the last pair appends it to them, the whole sort does. */
  lemma SortStableStep(ps: seq<Param>, k: string, le: (string, string) -> bool)
    requires ps != []
    requires SameRank(SortByName(ps[..|ps| - 1], le), k, le) == SameRank(ps[..|ps| - 1], k, le)
    requires SameRank(InsertByName(ps[|ps| - 1], SortByName(ps[..|ps| - 1], le), le), k, le)
          == SameRank(SortByName(ps[..|ps| - 1], le), k, le)
             + (if Equivalent(le, ps[|ps| - 1].name, k) then [ps[|ps| - 1]] else [])
    ensures SameRank(SortByName(ps, le), k, le) == SameRank(ps, k, le)
  {
    var init, last := ps[..|ps| - 1], ps[|ps| - 1];
    assert ps == init + [last];
    SameRankAppend(init, last, k, le);
  }

  /** The sort is stable: pairs that rank alike keep their input order. */
  lemma {:induction false} SortStable(ps: seq<Param>, k: string, le: (string, string) -> bool)
    requires TotalPreorder(le)
    ensures SameRank(SortByName(ps, le), k, le) == SameRank(ps, k, le)
  {
    if ps != [] {
      var init := ps[..|ps| - 1];
      SortStable(init, k, le);
      SortSorted(init, le);
      InsertSameRank(ps[|ps| - 1], SortByName(init, le), k, le);
      SortStableStep(ps, k, le);
    }
  }

  /** Two sorted sequences whose pairs of each rank appear in the same order are equal. */
  lemma {:induction false} SortedSameRanksEqual(r: seq<Param>, t: seq<Param>, le: (string, string) -> bool)
    requires TotalPreorder(le) && SortedByName(r, le) && SortedByName(t, le)
    requires forall k :: SameRank(r, k, le) == SameRank(t, k, le)
    ensures r == t
  {
    if r == [] || t == [] {
      if r != [] {
        SameRankMembers(r, r[0].name, le, r[0]);
      } else if t != [] {
        SameRankMembers(t, t[0].name, le, t[0]);
      }
    } else {
      var x, y := r[0], t[0];
      SameRankMembers(t, y.name, le, y);
      SameRankMembers(r, y.name, le, y);
      SameRankMembers(r, x.name, le, x);
      SameRankMembers(t, x.name, le, x);
      var i :| 0 <= i < |r| && r[i] == y;
      var j :| 0 <= j < |t| && t[j] == x;
      assert le(x.name, y.name) by { if i > 0 { assert le(r[0].name, r[i].name); } }
      assert le(y.name, x.name) by { if j > 0 { assert le(t[0].name, t[j].name); } }
      assert Equivalent(le, x.name, x.name) && Equivalent(le, y.name, x.name);
      assert SameRank(r, x.name, le) == [x] + SameRank(r[1..], x.name, le);
      assert SameRank(t, x.name, le) == [y] + SameRank(t[1..], x.name, le);
      assert SameRank(r, x.name, le) == SameRank(t, x.name, le);
      assert x == SameRank(r, x.name, le)[0] == SameRank(t, x.name, le)[0] == y;
      forall k ensures SameRank(r[1..], k, le) == SameRank(t[1..], k, le) {
        var head := if Equivalent(le, x.name, k) then [x] else [];
        var whole := SameRank(r, k, le);
        assert whole == head + SameRank(r[1..], k, le);
        assert whole == SameRank(t, k, le) == head + SameRank(t[1..], k, le);
        assert SameRank(r[1..], k, le) == whole[|head|..] == SameRank(t[1..], k, le);
      }
      SortedSameRanksEqual(r[1..], t[1..], le);
      assert r == [x] + r[1..] && t == [y] + t[1..];
    }
  }

  /** Any stable sort of ps by name gives what SortByName gives: whichever stable
      algorithm the engine runs, the data-check string is the same. */
  lemma StableSortIsUnique(ps: seq<Param>, r: seq<Param>, le: (string, string) -> bool)
    requires TotalPreorder(le) && SortedByName(r, le)
    requires forall k :: SameRank(r, k, le) == SameRank(ps, k, le)
    ensures r == SortByName(ps, le)
  {
    SortSorted(ps, le);
    forall k ensures SameRank(r, k, le) == SameRank(SortByName(ps, le), k, le) {
      SortStable(ps, k, le);
    }
    SortedSameRanksEqual(r, SortByName(ps, le), le);
  }

  lemma {:induction false} SameRankOfDistinct(s: seq<Param>, p: Param, le: (string, string) -> bool)
    requires TotalOrder(le) && DistinctNames(s) && p in s
    ensures SameRank(s, p.name, le) == [p]
  {
    if s[0] == p {
      forall q | q in s[1..] ensures !Equivalent(le, q.name, p.name) {
        var j :| 0 <= j < |s[1..]| && s[1..][j] == q;
        assert s[j + 1] == q;
      }
      SameRankNone(s[1..], p.name, le);
    } else {
      var j :| 0 <= j < |s| && s[j] == p;
      assert s[0].name != p.name;
      assert p in s[1..];
      SameRankOfDistinct(s[1..], p, le);
    }
  }

  // ---------------------------------------------------------------------------
  // Rendering the data-check string, and reading it back

  function Line(p: Param): (line: string)
    ensures |line| == |p.name| + 1 + |p.value| && line[|p.name|] == '='
  {
    p.name + "=" + p.value
  }

  /** `.map(([key, value]) => `${key}=${value}`).join('\n')` */
  function Render(ps: seq<Param>): (r: string)
    ensures r == "" <==> ps == []
  {
    if ps == [] then ""
    else if |ps| == 1 then Line(ps[0])
    else Line(ps[0]) + "\n" + Render(ps[1..])
  }

  /** The data-check string of the decoded pairs. */
  function DataCheckString(ps: seq<Param>, le: (string, string) -> bool): (r: string)
    ensures r == "" <==> forall p :: p in ps ==> p.name == HashName
  {
    var kept := WithoutHash(ps);
    assert kept == [] <==> forall p :: p in ps ==> p.name == HashName by {
      if kept != [] { assert kept[0] in kept; }
    }
    Render(SortByName(kept, le))
  }

  /** The first position of c in s, or |s| when there is none.  A character search
      for reading the data-check string back; the server's own `indexOf` on a
      string pattern is `Routes.FindFirst`. */
  function IndexOf(s: string, c: char): (i: nat)
    ensures i <= |s|
    ensures i < |s| ==> s[i] == c
    ensures forall j :: 0 <= j < i ==> s[j] != c
  {
    if s == [] then 0 else if s[0] == c then 0 else 1 + IndexOf(s[1..], c)
  }

  lemma IndexOfAfter(a: string, c: char, b: string)
    requires c !in a
    ensures IndexOf(a + [c] + b, c) == |a|
  {
    var i := IndexOf(a + [c] + b, c);
    assert (a + [c] + b)[|a|] == c;
  }

  /** Splits s at every line break. */
  function SplitLines(s: string): seq<string>
    decreases |s|
  {
    var i := IndexOf(s, '\n');
    if i == |s| then [s] else [s[..i]] + SplitLines(s[i + 1..])
  }

  /** Reads `name=value`, splitting at the first '='. */
  function ParseLine(line: string): Param
  {
    var i := IndexOf(line, '=');
    if i == |line| then Param(line, "") else Param(line[..i], line[i + 1..])
  }

  function ParseLines(lines: seq<string>): seq<Param>
  {
    if lines == [] then [] else [ParseLine(lines[0])] + ParseLines(lines[1..])
  }

  /** Reads a data-check string back into its pairs. */
  function ParseDataCheckString(s: string): seq<Param>
  {
    if s == "" then [] else ParseLines(SplitLines(s))
  }

  /** A pair the rendering can be read back from: no '=' in the name, no line break anywhere. */
  predicate WellFormed(p: Param)
  {
    '=' !in p.name && '\n' !in p.name && '\n' !in p.value
  }

  lemma LineOfWellFormed(p: Param)
    requires WellFormed(p)
    ensures '\n' !in Line(p) && Line(p) != ""
    ensures ParseLine(Line(p)) == p
  {
    IndexOfAfter(p.name, '=', p.value);
    assert Line(p) == p.name + ['='] + p.value;
    assert Line(p)[..|p.name|] == p.name;
    assert Line(p)[|p.name| + 1..] == p.value;
  }

  lemma SplitSingleLine(line: string)
    requires '\n' !in line
    ensures SplitLines(line) == [line]
  {
  }

  lemma SplitLinesAfter(first: string, rest: string)
    requires '\n' !in first
    ensures SplitLines(first + ['\n'] + rest) == [first] + SplitLines(rest)
  {
    var s := first + ['\n'] + rest;
    IndexOfAfter(first, '\n', rest);
    assert s[..|first|] == first && s[|first| + 1..] == rest;
  }

  /** Reading back a rendering gives the pairs that were rendered. */
  lemma {:induction false} RenderRoundTrip(ps: seq<Param>)
    requires forall p :: p in ps ==> WellFormed(p)
    ensures ParseDataCheckString(Render(ps)) == ps
  {
    if ps != [] {
      var first := Line(ps[0]);
      assert ps[0] in ps;
      LineOfWellFormed(ps[0]);
      if |ps| == 1 {
        SplitSingleLine(first);
        assert ParseLines([first]) == [ParseLine(first)] + ParseLines([]);
        assert ps == [ps[0]];
      } else {
        var rest := Render(ps[1..]);
        assert ps[1] in ps;
        LineOfWellFormed(ps[1]);
        assert rest != "";
        RenderRoundTrip(ps[1..]);
        SplitLinesAfter(first, rest);
        assert Render(ps) == first + ['\n'] + rest;
        var lines := SplitLines(rest);
        assert ParseLines([first] + lines) == [ps[0]] + ParseLines(lines);
        assert ps == [ps[0]] + ps[1..];
      }
    }
  }

  /** What the data-check string holds: read back, it is exactly the pairs other
      than `hash`, each once per occurrence, ordered by name. */
  lemma DataCheckStringContents(ps: seq<Param>, le: (string, string) -> bool)
    requires TotalPreorder(le)
    requires forall p :: p in ps ==> WellFormed(p)
    ensures multiset(ParseDataCheckString(DataCheckString(ps, le))) == multiset(WithoutHash(ps))
    ensures forall p :: multiset(ParseDataCheckString(DataCheckString(ps, le)))[p]
                        == if p.name != HashName then multiset(ps)[p] else 0
    ensures forall p :: p in ParseDataCheckString(DataCheckString(ps, le)) <==> p in ps && p.name != HashName
    ensures SortedByName(ParseDataCheckString(DataCheckString(ps, le)), le)
  {
    var sorted := SortByName(WithoutHash(ps), le);
    SortPermutes(WithoutHash(ps), le);
    SortSorted(WithoutHash(ps), le);
    WithoutHashCounts(ps);
    forall p | p in sorted ensures WellFormed(p) { assert p in multiset(sorted); }
    RenderRoundTrip(sorted);
    forall p ensures p in sorted <==> p in WithoutHash(ps) {
      assert p in sorted <==> p in multiset(sorted);
    }
  }

  /** Tamper sensitivity of the canonical form: claim sets of well-formed pairs
      with the same data-check string hold the same pairs (hash pairs aside), so
      adding, dropping or altering a claim changes the string that is signed. */
  lemma DataCheckStringDeterminesClaims(ps: seq<Param>, qs: seq<Param>, le: (string, string) -> bool)
    requires forall p :: p in ps ==> WellFormed(p)
    requires forall q :: q in qs ==> WellFormed(q)
    requires DataCheckString(ps, le) == DataCheckString(qs, le)
    ensures multiset(WithoutHash(ps)) == multiset(WithoutHash(qs))
  {
    var a, b := SortByName(WithoutHash(ps), le), SortByName(WithoutHash(qs), le);
    SortPermutes(WithoutHash(ps), le);
    SortPermutes(WithoutHash(qs), le);
    forall p | p in a ensures WellFormed(p) { assert p in multiset(a); }
    forall q | q in b ensures WellFormed(q) { assert q in multiset(b); }
    RenderRoundTrip(a);
    RenderRoundTrip(b);
  }

  /** With distinct names and a comparator that ranks no two names alike, the
      data-check string does not depend on the order of the pairs. */
  lemma DataCheckStringOrderIndependent(ps: seq<Param>, qs: seq<Param>, le: (string, string) -> bool)
    requires TotalOrder(le)
    requires DistinctNames(ps) && DistinctNames(qs) && multiset(ps) == multiset(qs)
    ensures DataCheckString(ps, le) == DataCheckString(qs, le)
  {
    var a, b := WithoutHash(ps), WithoutHash(qs);
    WithoutHashDistinct(ps);
    WithoutHashDistinct(qs);
    forall k ensures SameRank(a, k, le) == SameRank(b, k, le) {
      if p :| p in a && p.name == k {
        assert p in multiset(ps);
        SameRankOfDistinct(a, p, le);
        SameRankOfDistinct(b, p, le);
      } else {
        forall q | q in a ensures !Equivalent(le, q.name, k) { }
        forall q | q in b ensures !Equivalent(le, q.name, k) { assert q in multiset(qs); }
        SameRankNone(a, k, le);
        SameRankNone(b, k, le);
      }
    }
    SortSorted(b, le);
    forall k ensures SameRank(SortByName(b, le), k, le) == SameRank(a, k, le) {
      SortStable(b, k, le);
    }
    StableSortIsUnique(a, SortByName(b, le), le);
  }

  // ---------------------------------------------------------------------------
  // verifyTelegramAuth

  /** `!BOT_TOKEN` is false: the variable is set and not empty. */
  predicate TokenSet(botToken: Option<string>)
  {
    botToken.Some? && botToken.value != ""
  }

  /** HMAC("WebAppData", token): the key the data-check string is signed with. */
  function SecretKey(token: string, pf: Platform): (key: seq<byte>)
    ensures key == pf.hmacSha256(pf.utf8("WebAppData"), pf.utf8(token))
  {
    pf.hmacSha256(pf.utf8(SecretLabel), pf.utf8(token))
  }

  /** The digest a genuine request carries, as bytes. */
  function Digest(token: string, ps: seq<Param>, pf: Platform): (d: seq<byte>)
    ensures d == pf.hmacSha256(pf.hmacSha256(pf.utf8("WebAppData"), pf.utf8(token)),
                               pf.utf8(DataCheckString(ps, pf.localeLe)))
  {
    pf.hmacSha256(SecretKey(token, pf), pf.utf8(DataCheckString(ps, pf.localeLe)))
  }

  /** The claims reach the digest only through the data-check string. */
  lemma DigestDeterminedByDataCheckString(token: string, ps: seq<Param>, qs: seq<Param>, pf: Platform)
    requires DataCheckString(ps, pf.localeLe) == DataCheckString(qs, pf.localeLe)
    ensures Digest(token, ps, pf) == Digest(token, qs, pf)
  {
  }

  /** The check on the decoded pairs. */
  function VerifyClaims(botToken: Option<string>, ps: seq<Param>, pf: Platform): (ok: bool)
    ensures !TokenSet(botToken) ==> !ok
    ensures (forall p :: p in ps ==> p.name != HashName) ==> !ok
    ensures ok ==> Param(HashName, ToHex(Digest(botToken.value, ps, pf))) in ps
  {
    if !TokenSet(botToken) then false
    else match FirstValue(ps, HashName)
      case None => false
      case Some(hash) => hash == ToHex(Digest(botToken.value, ps, pf))
  }

  /** `verifyTelegramAuth(initData)` with the bot token of the environment. */
  function VerifyTelegramAuth(botToken: Option<string>, initData: string, pf: Platform): (ok: bool)
    ensures !TokenSet(botToken) ==> !ok
  {
    VerifyClaims(botToken, pf.parseQuery(initData), pf)
  }

  /** Acceptance, stated on bytes: a request passes exactly when the token is set
      and its first `hash` value is hex text that decodes to the expected digest
      (upper-case hex, for one, never passes). */
  lemma AcceptsIffHashDecodesToDigest(botToken: Option<string>, ps: seq<Param>, pf: Platform)
    ensures VerifyClaims(botToken, ps, pf)
        <==> TokenSet(botToken) && FirstValue(ps, HashName).Some?
             && FromHex(FirstValue(ps, HashName).value) == Some(Digest(botToken.value, ps, pf))
  {
    if TokenSet(botToken) && FirstValue(ps, HashName).Some? {
      var hash, digest := FirstValue(ps, HashName).value, Digest(botToken.value, ps, pf);
      FromHexToHex(digest);
      if FromHex(hash) == Some(digest) {
        ToHexFromHex(hash);
      }
    }
  }

  /** With distinct names and a comparator that ranks no two names alike, the
      verdict does not depend on the order of the pairs. */
  lemma VerifyClaimsOrderIndependent(botToken: Option<string>, ps: seq<Param>, qs: seq<Param>, pf: Platform)
    requires TotalOrder(pf.localeLe)
    requires DistinctNames(ps) && DistinctNames(qs) && multiset(ps) == multiset(qs)
    ensures VerifyClaims(botToken, ps, pf) == VerifyClaims(botToken, qs, pf)
  {
    DataCheckStringOrderIndependent(ps, qs, pf.localeLe);
    FirstValueOrderIndependent(ps, qs, HashName);
  }

  lemma FirstValueOrderIndependent(ps: seq<Param>, qs: seq<Param>, name: string)
    requires DistinctNames(ps) && DistinctNames(qs) && multiset(ps) == multiset(qs)
    ensures FirstValue(ps, name) == FirstValue(qs, name)
  {
    if p :| p in ps && p.name == name {
      assert p in multiset(qs);
      FirstValueOfDistinct(ps, p);
      FirstValueOfDistinct(qs, p);
    } else {
      forall q | q in qs ensures q.name != name { assert q in multiset(ps); }
    }
  }
}
