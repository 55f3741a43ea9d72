/** Nullable values and the truthiness tests the service applies to them. */
module Prelude {
  datatype Option<+T> = None | Some(value: T)

  /** `if (x)` on a nullable string: null and the empty string both count as absent. */
  function Truthy(o: Option<string>): Option<string> {
    if o == Some("") then None else o
  }

  predicate IsSpace(c: char) {
    c == ' ' || '\t' <= c <= '\r' || c == '\U{00A0}' || c == '\U{1680}' || '\U{2000}' <= c <= '\U{200A}'
    || c == '\U{2028}' || c == '\U{2029}' || c == '\U{202F}' || c == '\U{205F}' || c == '\U{3000}' || c == '\U{FEFF}'
  }

  /** `String.prototype.trim`. */
  function Trim(s: string): string {
    if s == "" then s
    else if IsSpace(s[0]) then Trim(s[1..])
    else if IsSpace(s[|s| - 1]) then Trim(s[..|s| - 1])
    else s
  }

  predicate AllSpace(s: string) {
    forall c | c in s :: IsSpace(c)
  }

  lemma {:induction false} TrimmedEnds(s: string)
    ensures Trim(s) != "" ==> !IsSpace(Trim(s)[0]) && !IsSpace(Trim(s)[|Trim(s)| - 1])
  {
    if s != "" && IsSpace(s[0]) {
      TrimmedEnds(s[1..]);
    } else if s != "" && IsSpace(s[|s| - 1]) {
      TrimmedEnds(s[..|s| - 1]);
    }
  }

  /** Trimming takes white space off both ends and leaves none there. */
  lemma TrimIs(s: string) returns (a: string, b: string)
    ensures s == a + Trim(s) + b && AllSpace(a) && AllSpace(b)
    ensures Trim(s) != "" ==> !IsSpace(Trim(s)[0]) && !IsSpace(Trim(s)[|Trim(s)| - 1])
  {
    a, b := TrimSplits(s);
    TrimmedEnds(s);
  }

  lemma {:induction false} TrimSplits(s: string) returns (a: string, b: string)
    ensures s == a + Trim(s) + b && AllSpace(a) && AllSpace(b)
  {
    a, b := "", "";
    if s != "" && IsSpace(s[0]) {
      a, b := TrimSplits(s[1..]);
      SplitHead(s, a, Trim(s), b);
      a := [s[0]] + a;
    } else if s != "" && IsSpace(s[|s| - 1]) {
      a, b := TrimSplits(s[..|s| - 1]);
      SplitLast(s, a, Trim(s), b);
      b := b + [s[|s| - 1]];
    }
  }

  lemma SplitHead(s: string, a: string, core: string, b: string)
    requires s != "" && IsSpace(s[0]) && s[1..] == a + core + b && AllSpace(a)
    ensures s == [s[0]] + a + core + b && AllSpace([s[0]] + a)
  {
    assert s == [s[0]] + s[1..];
    Regroup([s[0]], a, core, b);
    SpaceJoins([s[0]], a);
  }

  lemma SplitLast(s: string, a: string, core: string, b: string)
    requires s != "" && IsSpace(s[|s| - 1]) && s[..|s| - 1] == a + core + b && AllSpace(b)
    ensures s == a + core + (b + [s[|s| - 1]]) && AllSpace(b + [s[|s| - 1]])
  {
    var last := [s[|s| - 1]];
    assert s == s[..|s| - 1] + last;
    RegroupLast(a, core, b, last);
    SpaceJoins(b, last);
  }

  lemma Regroup(w: string, x: string, y: string, z: string)
    ensures w + (x + y + z) == w + x + y + z
  {
  }

  lemma RegroupLast(x: string, y: string, z: string, w: string)
    ensures x + y + z + w == x + y + (z + w)
  {
  }

  lemma SpaceJoins(a: string, b: string)
    requires AllSpace(a) && AllSpace(b)
    ensures AllSpace(a + b)
  {
    forall c | c in a + b ensures IsSpace(c) {
      assert c in a || c in b;
    }
  }

  /** Trimming leaves nothing of exactly the strings that are all white space. */
  lemma TrimmedAwayIff(s: string)
    ensures Trim(s) == "" <==> AllSpace(s)
  {
    var a, b := TrimIs(s);
    if Trim(s) != "" {
      assert s[|a|] == Trim(s)[0];
    }
  }

  // ------------------------------------------------------------------ fresh strings

  function Row(n: nat): (s: string)
    ensures |s| == n
  {
    seq(n, _ => 'x')
  }

  lemma {:induction false} LongerThan(used: set<string>) returns (n: nat)
    ensures forall s | s in used :: |s| < n
    decreases |used|
  {
    if used == {} {
      n := 1;
    } else {
      var s :| s in used;
      var m := LongerThan(used - {s});
      n := if m <= |s| then |s| + 1 else m;
    }
  }

  /** Among finitely many strings one is always missing, and it needs no trimming. */
  lemma FreshString(used: set<string>) returns (s: string)
    ensures s !in used && s != "" && Trim(s) == s
  {
    var n := LongerThan(used);
    s := Row(n + 1);
    assert s[0] == 'x' && s[|s| - 1] == 'x';
  }
}
