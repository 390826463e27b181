/** Subject patterns: matching, and the syntactic test for "this pattern covers that one" (subjectMatch.ts). */
module SubjectMatch {
  import opened Text

  function Tokens(s: string): (tokens: seq<string>) {
    Split(s, '.')
  }

  // ----- what the patterns mean -----

  /** `*` stands for one token, a final `>` for one or more; `>` anywhere else matches nothing. */
  ghost predicate Matches(pattern: seq<string>, subject: seq<string>) {
    var n := |pattern|;
    && n > 0
    && (forall i | 0 <= i < n - 1 :: pattern[i] != ">")
    && (if pattern[n - 1] == ">" then |subject| >= n else |subject| == n)
    && (forall i | 0 <= i < n && pattern[i] != ">" :: pattern[i] == "*" || pattern[i] == subject[i])
  }

  /** A pattern a server accepts: no empty token, `>` only at the end. */
  ghost predicate WellFormed(pattern: seq<string>) {
    && |pattern| > 0
    && (forall i | 0 <= i < |pattern| :: pattern[i] != "")
    && (forall i | 0 <= i < |pattern| - 1 :: pattern[i] != ">")
  }

  /** A subject a message can be published on: no empty token, no wildcard. */
  ghost predicate IsSubject(tokens: seq<string>) {
    forall i | 0 <= i < |tokens| :: tokens[i] != "" && tokens[i] != "*" && tokens[i] != ">"
  }

  ghost predicate Receives(pattern: string, subject: string) {
    IsSubject(Tokens(subject)) && Matches(Tokens(pattern), Tokens(subject))
  }

  /** Every message of the narrow pattern is also a message of the wide one. */
  ghost predicate Includes(wide: string, narrow: string) {
    forall s: string | Receives(narrow, s) :: Receives(wide, s)
  }

  // ----- the matcher -----

  method SubjectMatches(pattern: string, subject: string) returns (r: bool)
    ensures r <==> pattern != "" && subject != "" && Matches(Tokens(pattern), Tokens(subject))
  {
    if pattern == "" || subject == "" {
      return false;
    }
    var pt := Tokens(pattern);
    var st := Tokens(subject);
    for i := 0 to |pt|
      invariant i <= |st|
      invariant forall k | 0 <= k < i :: pt[k] != ">" && (pt[k] == "*" || pt[k] == st[k])
    {
      var p := pt[i];
      if p == ">" {
        return i == |pt| - 1 && |st| > i;
      }
      if i >= |st| || (p != "*" && p != st[i]) {
        return false;
      }
    }
    return |pt| == |st|;
  }

  /** The server's matcher: the same loop, without the check for empty text. */
  method ServerMatch(pattern: string, subject: string) returns (r: bool)
    ensures r <==> Matches(Tokens(pattern), Tokens(subject))
  {
    var pt := Tokens(pattern);
    var st := Tokens(subject);
    for i := 0 to |pt|
      invariant i <= |st|
      invariant forall k | 0 <= k < i :: pt[k] != ">" && (pt[k] == "*" || pt[k] == st[k])
    {
      var p := pt[i];
      if p == ">" {
        return i == |pt| - 1 && |st| > i;
      }
      if i >= |st| || (p != "*" && p != st[i]) {
        return false;
      }
    }
    return |pt| == |st|;
  }

  /**
   * The two matchers are meant to agree. They do, except on the empty subject
   * under an empty pattern or a lone wildcard, where only the server says yes.
   */
  lemma MatchersAgreeExactly(pattern: string, subject: string)
    ensures (pattern != "" && subject != "" && Matches(Tokens(pattern), Tokens(subject)) <==>
      Matches(Tokens(pattern), Tokens(subject)))
       <==> !(subject == "" && pattern in {"", "*", ">"})
  {
  }

  // ----- covering -----

  /** Where a pattern's `>` is, or its length when it has none. */
  ghost function RestAt(w: seq<string>): (f: nat)
    ensures f <= |w|
    ensures f < |w| ==> w[f] == ">"
    ensures forall i | 0 <= i < f :: w[i] != ">"
  {
    if w == [] || w[0] == ">" then 0 else 1 + RestAt(w[1..])
  }

  /** What the syntactic test compares, token by token up to the wide pattern's `>`. */
  ghost predicate CoversTokens(w: seq<string>, n: seq<string>) {
    var f := RestAt(w);
    && (if f < |w| then |n| > f else |n| == |w|)
    && (forall i | 0 <= i < f :: n[i] != ">" && (w[i] == "*" || w[i] == n[i]))
  }

  /** The test is exact: on well-formed patterns it says yes precisely when the wide one includes the narrow one. */
  method Covers(wide: string, narrow: string) returns (r: bool)
    ensures r <==> wide == narrow || CoversTokens(Tokens(wide), Tokens(narrow))
    ensures WellFormed(Tokens(wide)) && WellFormed(Tokens(narrow)) ==> (r <==> Includes(wide, narrow))
  {
    if WellFormed(Tokens(wide)) && WellFormed(Tokens(narrow)) {
      CoversIsInclusion(wide, narrow);
    }
    if wide == narrow {
      return true;
    }
    var w := Tokens(wide);
    var n := Tokens(narrow);
    for i := 0 to |w|
      invariant i <= |n|
      invariant forall k | 0 <= k < i :: w[k] != ">" && n[k] != ">" && (w[k] == "*" || w[k] == n[k])
    {
      if w[i] == ">" {
        return |n| >= i + 1;
      }
      if i >= |n| {
        return false;
      }
      if n[i] == ">" {
        return false;
      }
      if w[i] == "*" {
        continue;
      }
      if w[i] != n[i] {
        return false;
      }
    }
    return |w| == |n| && ">" !in n;
  }

  lemma CoversIsInclusion(wide: string, narrow: string)
    requires WellFormed(Tokens(wide)) && WellFormed(Tokens(narrow))
    ensures CoversTokens(Tokens(wide), Tokens(narrow)) <==> Includes(wide, narrow)
  {
    var w, n := Tokens(wide), Tokens(narrow);
    if CoversTokens(w, n) {
      forall s: string | Receives(narrow, s) ensures Receives(wide, s) {
        CoversIsSound(w, n, Tokens(s));
      }
    } else {
      var s := Separator(w, n);
      assert Receives(narrow, s) && !Receives(wide, s);
    }
  }

  lemma CoversIsSound(w: seq<string>, n: seq<string>, s: seq<string>)
    requires WellFormed(w) && WellFormed(n) && CoversTokens(w, n)
    requires Matches(n, s)
    ensures Matches(w, s)
  {
  }

  /** A token that no pattern token equals: it is longer than each of them. */
  ghost function Fresh(w: seq<string>): (t: string)
    requires forall p | p in w :: '.' !in p
    ensures t != "" && t[0] == 'x' && '.' !in t
    ensures forall p | p in w :: |p| < |t|
  {
    if w == [] then "x" else Fresh(w[1..]) + w[0]
  }

  /** The narrow pattern's own subject: each `*` the filler, the `>` as many as are asked for. */
  ghost function Instance(n: seq<string>, filler: string, more: nat): (s: seq<string>)
    requires |n| > 0
    ensures |s| == |n| - 1 + (if n[|n| - 1] == ">" then more else 1)
  {
    var last := |n| - 1;
    seq(last + (if n[last] == ">" then more else 1),
        i requires 0 <= i => if i < |n| && n[i] != "*" && n[i] != ">" then n[i] else filler)
  }

  /** When the test says no, there is a subject that only the narrow pattern matches. */
  lemma Separator(w: seq<string>, n: seq<string>) returns (s: string)
    requires WellFormed(w) && WellFormed(n) && !CoversTokens(w, n)
    requires forall t | t in w :: '.' !in t
    requires forall t | t in n :: '.' !in t
    ensures IsSubject(Tokens(s)) && Matches(n, Tokens(s)) && !Matches(w, Tokens(s))
  {
    var filler := Fresh(w);
    var more := if w[|w| - 1] == ">" then 1 else |w| + 1;
    var tokens := Instance(n, filler, more);
    s := Join(tokens, '.');
    forall t | t in tokens ensures '.' !in t {
    }
    SplitOfJoin(tokens, '.');
    InstanceIsMatchedOnlyByNarrow(w, n, filler, more);
  }

  lemma InstanceIsMatchedOnlyByNarrow(w: seq<string>, n: seq<string>, filler: string, more: nat)
    requires WellFormed(w) && WellFormed(n) && !CoversTokens(w, n)
    requires filler != "" && filler[0] == 'x' && filler !in w
    requires more == if w[|w| - 1] == ">" then 1 else |w| + 1
    ensures var tokens := Instance(n, filler, more); IsSubject(tokens) && Matches(n, tokens) && !Matches(w, tokens)
  {
    var tokens := Instance(n, filler, more);
    if Matches(w, tokens) {
      forall i | 0 <= i < RestAt(w) ensures i < |n| && n[i] != ">" && (w[i] == "*" || w[i] == n[i]) {
        assert w[i] != ">" && w[i] in w;
        assert w[i] == "*" || w[i] == tokens[i];
      }
      assert false;
    }
  }

  // ----- dropping what adds nothing -----

  method OverlappingPatterns(patterns: seq<string>) returns (out: seq<(string, string)>)
    ensures forall w, n :: (w, n) in out <==>
      w in patterns && n in patterns && w != n && CoversTokens(Tokens(w), Tokens(n))
  {
    out := [];
    for i := 0 to |patterns|
      invariant forall w, n :: (w, n) in out <==>
        w in patterns[..i] && n in patterns && w != n && CoversTokens(Tokens(w), Tokens(n))
    {
      var wide := patterns[i];
      for j := 0 to |patterns|
        invariant forall w, n :: (w, n) in out <==>
            && w != n && CoversTokens(Tokens(w), Tokens(n))
            && ((w in patterns[..i] && n in patterns) || (w == wide && n in patterns[..j]))
      {
        var narrow := patterns[j];
        assert patterns[..j + 1] == patterns[..j] + [narrow];
        if wide != narrow {
          var c := Covers(wide, narrow);
          if c {
            out := out + [(wide, narrow)];
          }
        }
      }
      assert patterns[..|patterns|] == patterns;
      assert patterns[..i + 1] == patterns[..i] + [wide];
    }
    assert patterns[..|patterns|] == patterns;
  }

  /** How much a pattern pins down; strictly more for anything it is covered by. */
  ghost function Weight(p: seq<string>): nat {
    if p == [] then 0
    else (if p[0] == ">" then 0 else if p[0] == "*" then 1 else 2) + Weight(p[1..])
  }

  lemma {:induction false} CoveredWeighsMore(w: seq<string>, n: seq<string>)
    requires WellFormed(w) && WellFormed(n) && CoversTokens(w, n)
    ensures w == n || Weight(w) < Weight(n)
  {
    if w[0] == ">" {
      assert |w| == 1;
      if n[0] == ">" {
        assert |n| == 1;
        assert w == n;
      }
    } else if |w| > 1 && |n| > 1 {
      assert w == [w[0]] + w[1..] && n == [n[0]] + n[1..];
      assert CoversTokens(w[1..], n[1..]) by {
        forall i | 0 <= i < |w| - 1 && w[1..][i] != ">"
          ensures n[1..][i] != ">" && (w[1..][i] == "*" || w[1..][i] == n[1..][i])
        {
          assert w[i + 1] == w[1..][i] && n[i + 1] == n[1..][i];
        }
      }
      CoveredWeighsMore(w[1..], n[1..]);
    }
  }

  /** Two patterns that include each other are the same pattern. */
  lemma InclusionIsAntisymmetric(a: string, b: string)
    requires WellFormed(Tokens(a)) && WellFormed(Tokens(b))
    requires Includes(a, b) && Includes(b, a)
    ensures a == b
  {
    CoversIsInclusion(a, b);
    CoversIsInclusion(b, a);
    CoveredWeighsMore(Tokens(a), Tokens(b));
    CoveredWeighsMore(Tokens(b), Tokens(a));
    assert Join(Tokens(a), '.') == a && Join(Tokens(b), '.') == b;
  }

  ghost predicate Narrow(patterns: seq<string>, n: string) {
    exists w :: w in patterns && w != n && CoversTokens(Tokens(w), Tokens(n))
  }

  /** Unsubscribing every pattern reported as narrow loses no message, even though the wide ones may be narrow too. */
  lemma DroppingNarrowKeepsEverySubject(patterns: seq<string>, kept: seq<string>, s: string)
    requires forall p | p in patterns :: WellFormed(Tokens(p))
    requires forall p :: p in kept <==> p in patterns && !Narrow(patterns, p)
    ensures (exists p :: p in kept && Receives(p, s)) <==> (exists p :: p in patterns && Receives(p, s))
  {
    if p :| p in patterns && Receives(p, s) {
      var k := KeptCover(patterns, p);
      assert Receives(k, s);
    }
  }

  lemma {:induction false} KeptCover(patterns: seq<string>, p: string) returns (k: string)
    requires forall q | q in patterns :: WellFormed(Tokens(q))
    requires p in patterns
    ensures k in patterns && !Narrow(patterns, k) && Includes(k, p)
    decreases Weight(Tokens(p))
  {
    if Narrow(patterns, p) {
      var w :| w in patterns && w != p && CoversTokens(Tokens(w), Tokens(p));
      CoversIsInclusion(w, p);
      CoveredWeighsMore(Tokens(w), Tokens(p));
      assert Join(Tokens(w), '.') == w && Join(Tokens(p), '.') == p;
      k := KeptCover(patterns, w);
    } else {
      k := p;
    }
  }
}
