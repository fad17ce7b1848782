/**
 * The path sanitiser `toSafePathSegment` of the site generator: a chain of
 * rewrites (replace unsafe characters, collapse `_` runs, trim `_` at both ends,
 * keep the first 32 characters) with a fallback for an empty result.
 */
module PathSegment {
  import opened Wrappers

  const MaxSegmentLength: nat := 32

  /** `[A-Za-z0-9_-]` */
  predicate IsSafeChar(c: char) {
    ('a' <= c <= 'z') || ('A' <= c <= 'Z') || ('0' <= c <= '9') || c == '_' || c == '-'
  }

  predicate AllSafe(s: string) {
    forall i :: 0 <= i < |s| ==> IsSafeChar(s[i])
  }

  /** No two adjacent underscores. */
  predicate NoDoubleUnderscore(s: string) {
    forall i, j :: 0 <= i < |s| && 0 <= j < |s| && j == i + 1 ==> !(s[i] == '_' && s[j] == '_')
  }

  /** What every non-fallback result of the sanitiser looks like. */
  predicate IsSafeSegment(s: string) {
    && 1 <= |s| <= MaxSegmentLength
    && AllSafe(s)
    && NoDoubleUnderscore(s)
    && s[0] != '_'
  }

  /** `.replace(/[^a-zA-Z0-9_-]/g, '_')` */
  function ReplaceUnsafe(s: string): (r: string)
    ensures |r| == |s|
    ensures forall i :: 0 <= i < |s| ==> r[i] == (if IsSafeChar(s[i]) then s[i] else '_')
  {
    if s == [] then [] else [if IsSafeChar(s[0]) then s[0] else '_'] + ReplaceUnsafe(s[1..])
  }

  /** `.replace(/_+/g, '_')`: of each run of underscores the last one is kept. */
  function Collapse(s: string): (r: string)
    ensures |r| <= |s|
    ensures s != [] ==> r != [] && r[0] == s[0]
    ensures AllSafe(s) ==> AllSafe(r)
    ensures AllUnderscores(s) ==> AllUnderscores(r)
    ensures NoDoubleUnderscore(r)
  {
    if |s| < 2 then s
    else if s[0] == '_' && s[1] == '_' then Collapse(s[1..])
    else [s[0]] + Collapse(s[1..])
  }

  /** The collapse keeps the last character: only the earlier members of a run are dropped. */
  lemma {:induction false} CollapseKeepsLast(s: string)
    requires s != []
    ensures Collapse(s)[|Collapse(s)| - 1] == s[|s| - 1]
    decreases |s|
  {
    if |s| >= 2 {
      CollapseKeepsLast(s[1..]);
      if !(s[0] == '_' && s[1] == '_') {
        var c := Collapse(s[1..]);
        assert ([s[0]] + c)[|c|] == c[|c| - 1];
      }
    }
  }

  predicate AllUnderscores(s: string) {
    forall i :: 0 <= i < |s| ==> s[i] == '_'
  }

  /** `s` with every underscore removed. */
  function WithoutUnderscores(s: string): string {
    if s == [] then [] else (if s[0] == '_' then [] else [s[0]]) + WithoutUnderscores(s[1..])
  }

  /** The collapse removes underscores only: every other character survives, in order. */
  lemma {:induction false} CollapseKeepsOtherCharacters(s: string)
    ensures WithoutUnderscores(Collapse(s)) == WithoutUnderscores(s)
  {
    if |s| >= 2 {
      CollapseKeepsOtherCharacters(s[1..]);
      if !(s[0] == '_' && s[1] == '_') {
        assert ([s[0]] + Collapse(s[1..]))[1..] == Collapse(s[1..]);
      }
    }
  }

  /** A run of underscores collapses to exactly one. */
  lemma {:induction false} CollapseRun(u: string)
    requires u != [] && AllUnderscores(u)
    ensures Collapse(u) == "_"
    decreases |u|
  {
    if |u| >= 2 {
      assert u[0] == '_' && u[1] == '_';
      CollapseRun(u[1..]);
    }
  }

  /** One unfolding of the collapse in front of a non-empty rest. */
  lemma CollapseCons(x: char, t: string)
    requires t != []
    ensures Collapse([x] + t) == if x == '_' && t[0] == '_' then Collapse(t) else [x] + Collapse(t)
  {
    var s := [x] + t;
    assert s[0] == x && s[1] == t[0] && s[1..] == t;
  }

  /** Where no `_` run crosses the boundary, the two halves collapse independently: together
      with `CollapseRun`, every maximal run of underscores becomes exactly one `_`. */
  lemma {:induction false} CollapseConcat(a: string, b: string)
    requires a != [] && b != [] && !(a[|a| - 1] == '_' && b[0] == '_')
    ensures Collapse(a + b) == Collapse(a) + Collapse(b)
    decreases |a|
  {
    if |a| == 1 {
      assert a + b == [a[0]] + b;
      CollapseCons(a[0], b);
    } else {
      CollapseConcat(a[1..], b);
      CollapseConsConcat(a[0], a[1..], b);
      assert [a[0]] + a[1..] == a;
    }
  }

  /** The inductive step of `CollapseConcat`: one more character in front. */
  lemma CollapseConsConcat(x: char, t: string, b: string)
    requires t != [] && b != []
    requires Collapse(t + b) == Collapse(t) + Collapse(b)
    ensures Collapse([x] + t + b) == Collapse([x] + t) + Collapse(b)
  {
    var run := x == '_' && t[0] == '_';
    assert [x] + t + b == [x] + (t + b) && (t + b)[0] == t[0];
    if run {
      assert Collapse([x] + (t + b)) == Collapse(t + b) by { CollapseCons(x, t + b); }
      assert Collapse([x] + t) == Collapse(t) by { CollapseCons(x, t); }
    } else {
      assert Collapse([x] + (t + b)) == [x] + Collapse(t + b) by { CollapseCons(x, t + b); }
      assert Collapse([x] + t) == [x] + Collapse(t) by { CollapseCons(x, t); }
      PrependKeepsConcat(x, Collapse(t), Collapse(b));
    }
  }

  lemma PrependKeepsConcat(x: char, u: string, v: string)
    ensures [x] + (u + v) == ([x] + u) + v
  {
  }

  /** Drops every leading underscore. */
  function TrimStart(s: string): (r: string)
    ensures |r| <= |s| && r == s[|s| - |r|..]
    ensures forall i :: 0 <= i < |s| - |r| ==> s[i] == '_'
    ensures r == [] || r[0] != '_'
  {
    if s != [] && s[0] == '_' then TrimStart(s[1..]) else s
  }

  /** Drops every trailing underscore. */
  function TrimEnd(s: string): (r: string)
    ensures |r| <= |s| && r == s[..|r|]
    ensures forall i :: |r| <= i < |s| ==> s[i] == '_'
    ensures r == [] || r[|r| - 1] != '_'
  {
    if s != [] && s[|s| - 1] == '_' then TrimEnd(s[..|s| - 1]) else s
  }

  /** `.replace(/^_+|_+$/g, '')` */
  function Trim(s: string): string {
    TrimEnd(TrimStart(s))
  }

  /** `.slice(0, 32)` */
  function Truncate(s: string): (r: string)
    ensures |r| == if |s| <= MaxSegmentLength then |s| else MaxSegmentLength
    ensures r == s[..|r|]
  {
    if |s| <= MaxSegmentLength then s else s[..MaxSegmentLength]
  }

  /** The whole rewrite chain, before the fallback is applied. */
  function Cleaned(input: string): string {
    Truncate(Trim(Collapse(ReplaceUnsafe(input))))
  }

  /** `toSafePathSegment(value, fallback)`: `null`/`undefined` reads as `""`,
      an empty cleaned string gives `fallback` unchanged. */
  function ToSafePathSegment(value: Option<string>, fallback: string): (r: string)
    ensures Cleaned(value.GetOr("")) == [] ==> r == fallback
    ensures Cleaned(value.GetOr("")) != [] ==> r == Cleaned(value.GetOr("")) && IsSafeSegment(r)
  {
    var cleaned := Cleaned(value.GetOr(""));
    if cleaned == [] then fallback
    else
      CleanedIsSafe(value.GetOr(""));
      cleaned
  }

  /** A substring of a safe string without `__` is again safe and without `__`. */
  lemma SliceKeepsShape(s: string, i: nat, j: nat)
    requires i <= j <= |s| && AllSafe(s) && NoDoubleUnderscore(s)
    ensures AllSafe(s[i..j]) && NoDoubleUnderscore(s[i..j])
  {
    var t := s[i..j];
    forall k | 0 <= k < |t| ensures IsSafeChar(t[k]) {
      assert t[k] == s[i + k];
    }
    forall k | 0 <= k < |t| - 1 ensures !(t[k] == '_' && t[k + 1] == '_') {
      assert t[k] == s[i + k] && t[k + 1] == s[i + k + 1];
    }
  }

  lemma TrimStartKeepsShape(c: string)
    requires AllSafe(c) && NoDoubleUnderscore(c)
    ensures AllSafe(TrimStart(c)) && NoDoubleUnderscore(TrimStart(c))
  {
    var k := |c| - |TrimStart(c)|;
    SliceKeepsShape(c, k, |c|);
    assert c[k..|c|] == TrimStart(c);
  }

  /** Trimming a safe string without `__` leaves one with no `_` at either end. */
  lemma TrimKeepsShape(c: string)
    requires AllSafe(c) && NoDoubleUnderscore(c)
    ensures var t := Trim(c);
      AllSafe(t) && NoDoubleUnderscore(t) && (t == [] || (t[0] != '_' && t[|t| - 1] != '_'))
  {
    var s := TrimStart(c);
    TrimStartKeepsShape(c);
    var t := TrimEnd(s);
    assert t == s[0..|t|];
    SliceKeepsShape(s, 0, |t|);
    if t != [] {
      assert t[0] == s[0];
    }
  }

  /** The trimmed, collapsed string: safe characters, no `__`, no `_` at either end. */
  lemma TrimmedShape(input: string)
    ensures var t := Trim(Collapse(ReplaceUnsafe(input)));
      AllSafe(t) && NoDoubleUnderscore(t) && (t == [] || (t[0] != '_' && t[|t| - 1] != '_'))
  {
    var u := ReplaceUnsafe(input);
    assert AllSafe(u);
    TrimKeepsShape(Collapse(u));
  }

  /** Every non-empty cleaned string is a safe segment. */
  lemma CleanedIsSafe(input: string)
    ensures Cleaned(input) != [] ==> IsSafeSegment(Cleaned(input))
  {
    var t := Trim(Collapse(ReplaceUnsafe(input)));
    TrimmedShape(input);
    assert AllSafe(t) && NoDoubleUnderscore(t);
    var r := Truncate(t);
    assert r == Cleaned(input);
    SliceKeepsShape(t, 0, |r|);
    assert t[0..|r|] == r;
    if r != [] {
      assert r[0] == t[0];
    }
  }

  /** Null and undefined are sanitised like the empty string: the fallback comes back. */
  lemma NullGivesFallback(fallback: string)
    ensures ToSafePathSegment(None, fallback) == fallback
    ensures ToSafePathSegment(Some(""), fallback) == fallback
  {
  }

  /** A string made only of unsafe characters and underscores gives the fallback. */
  lemma {:induction false} NoSafeContentGivesFallback(input: string, fallback: string)
    requires forall i :: 0 <= i < |input| ==> input[i] == '_' || !IsSafeChar(input[i])
    ensures ToSafePathSegment(Some(input), fallback) == fallback
  {
    var u := ReplaceUnsafe(input);
    assert AllUnderscores(u);
    var c := Collapse(u);
    var s := TrimStart(c);
    assert s == [];
  }

  /** The rewrites change nothing on a string that is already safe, collapsed and trimmed. */
  lemma {:induction false} ReplaceUnsafeFixesSafe(s: string)
    requires AllSafe(s)
    ensures ReplaceUnsafe(s) == s
  {
  }

  lemma {:induction false} CollapseFixesNoDouble(s: string)
    requires AllSafe(s) && NoDoubleUnderscore(s)
    ensures Collapse(s) == s
    decreases |s|
  {
    if |s| >= 2 {
      SliceKeepsShape(s, 1, |s|);
      assert !(s[0] == '_' && s[1] == '_');
      CollapseFixesNoDouble(s[1..]);
      assert [s[0]] + s[1..] == s;
    }
  }

  /**
   * Sanitising a sanitised result again is the identity, except that a
   * trailing `_` left by the truncation is removed: the sanitiser is NOT
   * idempotent in general.
   */
  lemma ResanitiseSafeSegment(r: string, fallback: string)
    requires IsSafeSegment(r)
    ensures ToSafePathSegment(Some(r), fallback) == if r[|r| - 1] == '_' then r[..|r| - 1] else r
  {
    assert Cleaned(r) == Truncate(TrimEnd(r)) by {
      ReplaceUnsafeFixesSafe(r);
      CollapseFixesNoDouble(r);
      assert TrimStart(r) == r;
    }
    if r[|r| - 1] == '_' {
      var p := r[..|r| - 1];
      assert |r| >= 2 && p[0] == r[0];
      assert p[|p| - 1] != '_' by {
        assert p[|p| - 1] == r[|r| - 2];
      }
      assert TrimEnd(r) == TrimEnd(p) == p;
    } else {
      assert TrimEnd(r) == r;
    }
  }

  /** Idempotence holds exactly for the results that do not end in `_`. */
  lemma IdempotentUnlessTrailingUnderscore(value: Option<string>, fallback: string)
    requires Cleaned(value.GetOr("")) != []
    ensures var r := ToSafePathSegment(value, fallback);
      (ToSafePathSegment(Some(r), fallback) == r) <==> r[|r| - 1] != '_'
  {
    var r := ToSafePathSegment(value, fallback);
    assert IsSafeSegment(r);
    ResanitiseSafeSegment(r, fallback);
    if r[|r| - 1] == '_' {
      assert |r[..|r| - 1]| < |r|;
    }
  }

  /** A space and a trailing `!!` become underscores, which the collapse and the trim then
      reduce to one inner `_` and nothing at the end. */
  lemma SanitisedExample(fallback: string)
    ensures ToSafePathSegment(Some("My User!!"), fallback) == "My_User"
  {
    var a, b := "My_User", "__";
    ExampleReplaced(a, b);
    ExampleCollapsed(a, b);
    ExampleTrimmed(a);
  }

  lemma ExampleReplaced(a: string, b: string)
    requires a == "My_User" && b == "__"
    ensures ReplaceUnsafe("My User!!") == a + b
  {
    var u := ReplaceUnsafe("My User!!");
    assert |u| == 9;
    assert forall i | 0 <= i < 9 :: u[i] == (a + b)[i];
  }

  lemma ExampleCollapsed(a: string, b: string)
    requires a == "My_User" && b == "__"
    ensures Collapse(a + b) == a + "_"
  {
    ExampleWordKept(a);
    CollapseTrailingRun(a, b);
  }

  /** A word that the collapse keeps, followed by a run of underscores, keeps one of them. */
  lemma CollapseTrailingRun(a: string, b: string)
    requires a != [] && a[|a| - 1] != '_' && Collapse(a) == a
    requires b != [] && AllUnderscores(b)
    ensures Collapse(a + b) == a + "_"
  {
    CollapseRun(b);
    CollapseConcat(a, b);
  }

  lemma ExampleWordKept(a: string)
    requires a == "My_User"
    ensures Collapse(a) == a
  {
    assert NoDoubleUnderscore(a) by {
      forall i, j | 0 <= i < 7 && 0 <= j < 7 && j == i + 1
        ensures !(a[i] == '_' && a[j] == '_')
      {
      }
    }
    CollapseFixesNoDouble(a);
  }

  lemma ExampleTrimmed(a: string)
    requires a == "My_User"
    ensures Trim(a + "_") == a
  {
    var c := a + "_";
    assert TrimStart(c) == c;
    assert c[..|c| - 1] == a;
    assert TrimEnd(a) == a;
  }

  /**
   * The truncation runs after the trim, so a result CAN end in `_`: 31 letters,
   * an underscore and one more letter keep their first 32 characters.
   */
  lemma TruncatedResultMayEndInUnderscore(fallback: string)
    ensures var input := seq(31, _ => 'a') + "_b";
      var r := ToSafePathSegment(Some(input), fallback);
      |r| == MaxSegmentLength && r[MaxSegmentLength - 1] == '_'
  {
    var input := seq(31, _ => 'a') + "_b";
    assert AllSafe(input);
    ReplaceUnsafeFixesSafe(input);
    assert NoDoubleUnderscore(input);
    CollapseFixesNoDouble(input);
    assert TrimStart(input) == input;
    assert TrimEnd(input) == input;
    assert Cleaned(input) == input[..MaxSegmentLength];
  }
}
