/** Left-to-right, non-overlapping rewriting of text.  One scanner serves both
    Go's `strings.Replace(s, old, new, -1)` (a literal pattern) and the
    `\^PR\d+,\d+` regular-expression rewrite used by the label renderer. */
module Rewrite {

  /** `s` begins with `x`. */
  predicate StartsWith(s: string, x: string) {
    |x| <= |s| && s[..|x|] == x
  }

  /** `x` occurs somewhere in `s`. */
  predicate Occurs(s: string, x: string)
    decreases |s|
  {
    StartsWith(s, x) || (|s| > 0 && Occurs(s[1..], x))
  }

  /** `u` and `x` agree wherever both are defined: one is a prefix of the other. */
  predicate Compatible(u: string, x: string) {
    forall k :: 0 <= k < |u| && k < |x| ==> u[k] == x[k]
  }

  /** No non-empty suffix of `u` is compatible with `x`. */
  predicate NoSuffixMeets(u: string, x: string) {
    forall j :: 0 <= j < |u| ==> !Compatible(u[j..], x)
  }

  /** Inserting `b` into a text cannot create a new occurrence of `x`:
      no occurrence of `x` can begin inside `b`, and no occurrence of `x`
      that begins before `b` can run into it. */
  predicate Shielded(x: string, b: string)
    requires |x| > 0
  {
    NoSuffixMeets(b, x) && NoSuffixMeets(x[1..], b)
  }

  predicate IsDigit(c: char) { '0' <= c <= '9' }

  /** What the scanner looks for at each position. */
  datatype Pattern = Literal(text: string) | Density

  /** The regular expression `PR\d+,\d+` (after the caret) as an automaton:
      the number of characters of `s` it consumes starting in state `st`,
      or -1 when it fails.  The digit runs are greedy, as in Go's regexp. */
  function PrArgs(s: string, st: nat): (r: int)
    requires 1 <= st <= 6
    ensures -1 <= r <= |s|
    ensures 0 <= r < |s| ==> !IsDigit(s[r])
    ensures st < 6 ==> r != 0
    decreases |s|
  {
    if st == 6 then
      if |s| > 0 && IsDigit(s[0]) then 1 + PrArgs(s[1..], 6) else 0
    else if |s| == 0 then -1
    else
      var next :=
        if st == 1 then (if s[0] == 'P' then 2 else 0)
        else if st == 2 then (if s[0] == 'R' then 3 else 0)
        else if st == 3 then (if IsDigit(s[0]) then 4 else 0)
        else if st == 4 then (if IsDigit(s[0]) then 4 else if s[0] == ',' then 5 else 0)
        else (if IsDigit(s[0]) then 6 else 0);
      if next == 0 then -1
      else
        var k := PrArgs(s[1..], next);
        if k < 0 then -1 else k + 1
  }

  /** Length of the `\^PR\d+,\d+` command at the start of `s`, 0 if none. */
  function DensityMatch(s: string): (n: nat)
    ensures n <= |s|
    ensures n > 0 ==> StartsWith(s, "^PR") && n >= 6
    ensures 0 < n < |s| ==> !IsDigit(s[n])
  {
    if |s| > 0 && s[0] == '^' then
      var k := PrArgs(s[1..], 1);
      if k < 0 then 0
      else
        PrArgsShape(s[1..]);
        k + 1
    else 0
  }

  /** A successful match from state 1 reads `PR`, at least one digit, a comma
      and at least one digit. */
  lemma PrArgsShape(s: string)
    requires PrArgs(s, 1) >= 0
    ensures |s| >= 5 && s[0] == 'P' && s[1] == 'R' && PrArgs(s, 1) >= 5
  {
    var s1, s2, s3 := s[1..], s[2..], s[3..];
    assert s1[1..] == s2 && s2[1..] == s3;
    assert s[0] == 'P' && PrArgs(s1, 2) >= 0;
    assert s1[0] == 'R' && PrArgs(s2, 3) >= 0;
    assert IsDigit(s2[0]) && PrArgs(s3, 4) >= 0;
    PrArgsFour(s3);
  }

  lemma PrArgsFour(s: string)
    requires PrArgs(s, 4) >= 0
    ensures PrArgs(s, 4) >= 2
    decreases |s|
  {
    if IsDigit(s[0]) { PrArgsFour(s[1..]); }
  }

  /** Length of the match of `p` at the start of `s`, 0 if there is none. */
  function MatchLength(p: Pattern, s: string): (n: nat)
    ensures n <= |s|
    ensures p.Literal? ==> (n > 0 <==> |p.text| > 0 && StartsWith(s, p.text))
    ensures p.Literal? && n > 0 ==> n == |p.text|
    ensures p.Density? ==> n == DensityMatch(s)
  {
    match p
    case Literal(a) => if |a| > 0 && StartsWith(s, a) then |a| else 0
    case Density => DensityMatch(s)
  }

  /** Scan `s` from the left; replace every match of `p` by `b` and resume
      after the match; copy every other character. */
  function RewriteAll(s: string, p: Pattern, b: string): string
    decreases |s|
  {
    if s == [] then []
    else
      var m := MatchLength(p, s);
      if m > 0 then b + RewriteAll(s[m..], p, b)
      else [s[0]] + RewriteAll(s[1..], p, b)
  }

  /** Go's `strings.Replace(s, a, b, -1)`.  An empty `a` matches before every
      character and at the end. */
  function ReplaceAll(s: string, a: string, b: string): string {
    if |a| == 0 then InsertEverywhere(s, b) else RewriteAll(s, Literal(a), b)
  }

  function InsertEverywhere(s: string, b: string): string
    decreases |s|
  {
    if s == [] then b else b + [s[0]] + InsertEverywhere(s[1..], b)
  }

  /** The replacement written over every density command. */
  const CanonicalDensity: string := "^PR12,12"

  /** The renderer's `regex.ReplaceAllString(tmpl, "\\^PR\\d+,\\d+", "^PR12,12")`. */
  function NormalizeDensity(s: string): string {
    RewriteAll(s, Density, CanonicalDensity)
  }

  // ---------------------------------------------------------------------
  // Occurrences

  lemma {:induction false} OccursAt(s: string, i: nat, x: string)
    requires i <= |s| && StartsWith(s[i..], x)
    ensures Occurs(s, x)
    decreases i
  {
    if i > 0 {
      assert s[1..][i - 1..] == s[i..];
      OccursAt(s[1..], i - 1, x);
    }
  }

  lemma OccursAtWhen(s: string, i: nat, x: string)
    ensures i <= |s| && StartsWith(s[i..], x) ==> Occurs(s, x)
  {
    if i <= |s| && StartsWith(s[i..], x) { OccursAt(s, i, x); }
  }

  lemma {:induction false} AbsentFromSuffix(s: string, i: nat, x: string)
    requires i <= |s| && !Occurs(s, x)
    ensures !Occurs(s[i..], x)
    decreases i
  {
    if i > 0 {
      assert s[1..][i - 1..] == s[i..];
      AbsentFromSuffix(s[1..], i - 1, x);
    }
  }

  /** A text that does not contain the first character of `x` does not contain `x`. */
  lemma {:induction false} AbsentFirstChar(s: string, x: string)
    requires |x| > 0 && x[0] !in s
    ensures !Occurs(s, x)
    decreases |s|
  {
    if |s| > 0 {
      assert s[0] in s;
      forall c | c in s[1..] ensures c in s { }
      AbsentFirstChar(s[1..], x);
    }
  }

  // ---------------------------------------------------------------------
  // The central fact: what a rewrite cannot create

  /** If the output of a rewrite begins with `y`, and no replacement block can
      begin inside `y`, then `y` was copied from the input. */
  lemma {:induction false} CopiedPrefix(t: string, p: Pattern, b: string, y: string)
    requires StartsWith(RewriteAll(t, p, b), y)
    requires NoSuffixMeets(y, b)
    ensures StartsWith(t, y)
    decreases |t|
  {
    if |y| > 0 {
      var r := RewriteAll(t, p, b);
      assert t != [];
      var m := MatchLength(p, t);
      BlockStartClash(t, p, b, y);
      assert m == 0;
      {
        var rest := RewriteAll(t[1..], p, b);
        assert r == [t[0]] + rest;
        assert StartsWith(rest, y[1..]) by {
          assert rest[..|y| - 1] == r[1..|y|];
        }
        assert NoSuffixMeets(y[1..], b) by {
          forall j | 0 <= j < |y[1..]| ensures !Compatible(y[1..][j..], b) {
            assert y[1..][j..] == y[j + 1..];
          }
        }
        CopiedPrefix(t[1..], p, b, y[1..]);
        assert t[..|y|] == [t[0]] + t[1..][..|y| - 1];
      }
    }
  }

  /** An output that begins with a replacement block cannot begin with a
      text no suffix of which meets the block. */
  lemma BlockStartClash(t: string, p: Pattern, b: string, y: string)
    ensures t != [] && MatchLength(p, t) > 0 && |y| > 0 && StartsWith(RewriteAll(t, p, b), y)
      ==> !NoSuffixMeets(y, b)
  {
    if t != [] && MatchLength(p, t) > 0 && |y| > 0 && StartsWith(RewriteAll(t, p, b), y) {
      var r := RewriteAll(t, p, b);
      assert r == b + RewriteAll(t[MatchLength(p, t)..], p, b);
      assert y[0..] == y;
      forall k | 0 <= k < |y| && k < |b| ensures y[k] == b[k] {
        assert r[k] == y[k];
      }
    }
  }

  lemma BlockHeadClash(b: string, rest: string, x: string)
    ensures |b| > 0 && StartsWith(b + rest, x) ==> !NoSuffixMeets(b, x)
  {
    if |b| > 0 && StartsWith(b + rest, x) {
      assert b[0..] == b;
      forall k | 0 <= k < |b| && k < |x| ensures b[k] == x[k] {
        assert (b + rest)[k] == b[k];
      }
    }
  }

  /** A block `b` that no occurrence of `x` can begin inside contributes no
      occurrence of `x` to `b + rest`. */
  lemma {:induction false} BlockHides(b: string, rest: string, x: string)
    requires |x| > 0 && NoSuffixMeets(b, x)
    requires Occurs(b + rest, x)
    ensures Occurs(rest, x)
    decreases |b|
  {
    if |b| > 0 {
      BlockHeadClash(b, rest, x);
      assert (b + rest)[1..] == b[1..] + rest;
      assert NoSuffixMeets(b[1..], x) by {
        forall j | 0 <= j < |b[1..]| ensures !Compatible(b[1..][j..], x) {
          assert b[1..][j..] == b[j + 1..];
        }
      }
      BlockHides(b[1..], rest, x);
    } else {
      assert b + rest == rest;
    }
  }

  /** A rewrite whose replacement is shielded from `x` removes every
      occurrence of `x` when `x` is the pattern itself, and never introduces
      one otherwise. */
  lemma {:induction false} RewriteAvoids(s: string, p: Pattern, b: string, x: string)
    requires |x| > 0 && Shielded(x, b)
    requires p == Literal(x) || !Occurs(s, x)
    ensures !Occurs(RewriteAll(s, p, b), x)
    decreases |s|
  {
    if s != [] {
      var m := MatchLength(p, s);
      if m > 0 {
        if p != Literal(x) { AbsentFromSuffix(s, m, x); }
        RewriteAvoids(s[m..], p, b, x);
        if Occurs(b + RewriteAll(s[m..], p, b), x) {
          BlockHides(b, RewriteAll(s[m..], p, b), x);
        }
      } else {
        var rest := RewriteAll(s[1..], p, b);
        RewriteAvoids(s[1..], p, b, x);
        var r := [s[0]] + rest;
        assert RewriteAll(s, p, b) == r;
        if StartsWith(r, x) {
          assert r[0] == x[0];
          assert StartsWith(rest, x[1..]) by {
            assert rest[..|x| - 1] == r[1..|x|];
          }
          CopiedPrefix(s[1..], p, b, x[1..]);
        }
        assert (r)[1..] == rest;
      }
    }
  }

  // ---------------------------------------------------------------------
  // Sufficient conditions for Shielded

  /** Tokens opened and closed by a delimiter, such as `$DATE$`, are shielded
      from any replacement that contains neither delimiter and does not
      itself occur inside the token. */
  lemma DelimitedShielded(x: string, b: string)
    requires |x| >= 2 && x[0] !in b && x[|x| - 1] !in b && !Occurs(x, b)
    ensures Shielded(x, b)
  {
    forall j | 0 <= j < |b| ensures !Compatible(b[j..], x) {
      assert b[j..][0] == b[j] && b[j] in b;
    }
    forall j | 0 <= j < |x[1..]| ensures !Compatible(x[1..][j..], b) {
      var y := x[1..][j..];
      assert y == x[j + 1..];
      if |y| <= |b| {
        assert y[|y| - 1] == x[|x| - 1];
        assert b[|y| - 1] in b;
      } else {
        assert Compatible(y, b) ==> y[..|b|] == b;
        OccursAtWhen(x, j + 1, b);
      }
    }
  }

  /** Caret commands such as `^MMT` are shielded from a caret command that
      differs from them, when neither has a caret after its first character. */
  lemma CaretShielded(x: string, b: string)
    requires |x| > 0 && |b| > 0 && x[0] == '^' && b[0] == '^'
    requires '^' !in x[1..] && '^' !in b[1..]
    requires !Compatible(x, b)
    ensures Shielded(x, b)
  {
    forall j | 0 <= j < |b| ensures !Compatible(b[j..], x) {
      if j == 0 {
        assert b[j..] == b;
      } else {
        assert b[j..][0] == b[1..][j - 1];
      }
    }
    forall j | 0 <= j < |x[1..]| ensures !Compatible(x[1..][j..], b) {
      assert x[1..][j..][0] == x[1..][j];
    }
  }

  // ---------------------------------------------------------------------
  // strings.Replace

  /** Text that does not contain `a` is returned unchanged. */
  lemma {:induction false} ReplaceAllAbsent(s: string, a: string, b: string)
    requires |a| > 0 && !Occurs(s, a)
    ensures ReplaceAll(s, a, b) == s
    decreases |s|
  {
    if s != [] {
      ReplaceAllAbsent(s[1..], a, b);
    }
  }

  /** After replacing `a` by a shielded `b`, no `a` is left. */
  lemma ReplaceAllRemoves(s: string, a: string, b: string)
    requires |a| > 0 && Shielded(a, b)
    ensures !Occurs(ReplaceAll(s, a, b), a)
  {
    RewriteAvoids(s, Literal(a), b, a);
  }

  /** Replacing `a` by `b` does not create an `x` from which `b` is shielded. */
  lemma ReplaceAllPreserves(s: string, a: string, b: string, x: string)
    requires |a| > 0 && |x| > 0 && Shielded(x, b) && !Occurs(s, x)
    ensures !Occurs(ReplaceAll(s, a, b), x)
  {
    RewriteAvoids(s, Literal(a), b, x);
  }

  /** Normalising densities does not create an `x` from which `^PR12,12` is shielded. */
  lemma NormalizePreserves(s: string, x: string)
    requires |x| > 0 && Shielded(x, CanonicalDensity) && !Occurs(s, x)
    ensures !Occurs(NormalizeDensity(s), x)
  {
    RewriteAvoids(s, Density, CanonicalDensity, x);
  }

  // ---------------------------------------------------------------------
  // strings.Split and strings.Join: an independent description of Replace

  /** Go's `strings.Split(s, a)` for a non-empty separator. */
  function Split(s: string, a: string): (pieces: seq<string>)
    requires |a| > 0
    ensures |pieces| > 0
    decreases |s|
  {
    if s == [] then [[]]
    else if StartsWith(s, a) then [[]] + Split(s[|a|..], a)
    else
      var rest := Split(s[1..], a);
      [[s[0]] + rest[0]] + rest[1..]
  }

  /** Go's `strings.Join(pieces, sep)`. */
  function Join(pieces: seq<string>, sep: string): string
    decreases |pieces|
  {
    if |pieces| == 0 then []
    else if |pieces| == 1 then pieces[0]
    else pieces[0] + sep + Join(pieces[1..], sep)
  }

  lemma JoinPushFront(c: char, pieces: seq<string>, sep: string)
    requires |pieces| > 0
    ensures Join([[c] + pieces[0]] + pieces[1..], sep) == [c] + Join(pieces, sep)
  {
    var q := [[c] + pieces[0]] + pieces[1..];
    assert q[1..] == pieces[1..];
  }

  lemma JoinPushEmpty(pieces: seq<string>, sep: string)
    requires |pieces| > 0
    ensures Join([[]] + pieces, sep) == sep + Join(pieces, sep)
  {
    var q := [[]] + pieces;
    assert q[0] == [] && q[1..] == pieces;
  }

  /** Joining the pieces of a split with the separator gives back the text. */
  lemma {:induction false} SplitJoinRoundTrip(s: string, a: string)
    requires |a| > 0
    ensures Join(Split(s, a), a) == s
    decreases |s|
  {
    if s == [] {
    } else if StartsWith(s, a) {
      SplitJoinRoundTrip(s[|a|..], a);
      JoinPushEmpty(Split(s[|a|..], a), a);
      assert s == a + s[|a|..];
    } else {
      SplitJoinRoundTrip(s[1..], a);
      JoinPushFront(s[0], Split(s[1..], a), a);
    }
  }

  /** `strings.Replace(s, a, b, -1) == strings.Join(strings.Split(s, a), b)`:
      the text is cut at the occurrences of `a`, found left to right, and
      put back together with `b` in each cut. */
  lemma {:induction false} ReplaceAllIsSplitJoin(s: string, a: string, b: string)
    requires |a| > 0
    ensures ReplaceAll(s, a, b) == Join(Split(s, a), b)
    decreases |s|
  {
    if s == [] {
    } else if StartsWith(s, a) {
      ReplaceAllIsSplitJoin(s[|a|..], a, b);
    } else {
      ReplaceAllIsSplitJoin(s[1..], a, b);
      JoinPushFront(s[0], Split(s[1..], a), b);
    }
  }

  /** No piece of a split contains the separator. */
  lemma {:induction false} SplitPiecesFree(s: string, a: string)
    requires |a| > 0
    ensures forall i :: 0 <= i < |Split(s, a)| ==> !Occurs(Split(s, a)[i], a)
    decreases |s|
  {
    var ps := Split(s, a);
    if s == [] {
      assert ps == [[]];
    } else if StartsWith(s, a) {
      SplitPiecesFree(s[|a|..], a);
      assert ps == [[]] + Split(s[|a|..], a);
      forall i | 0 <= i < |ps| ensures !Occurs(ps[i], a) {
        if i > 0 { assert ps[i] == Split(s[|a|..], a)[i - 1]; }
      }
    } else {
      var rest := Split(s[1..], a);
      SplitPiecesFree(s[1..], a);
      assert ps == [[s[0]] + rest[0]] + rest[1..];
      FirstPieceIsPrefix(s[1..], a);
      FirstPieceFree(s, a, rest[0]);
      forall i | 0 < i < |ps| ensures !Occurs(ps[i], a) {
        assert ps[i] == rest[i];
      }
    }
  }

  /** Extending the first piece by a character at which no separator starts. */
  lemma FirstPieceFree(s: string, a: string, p0: string)
    requires |a| > 0 && s != [] && !StartsWith(s, a)
    requires StartsWith(s[1..], p0) && !Occurs(p0, a)
    ensures !Occurs([s[0]] + p0, a)
  {
    var q := [s[0]] + p0;
    assert q[1..] == p0;
    assert q == s[..|q|];
  }

  lemma {:induction false} FirstPieceIsPrefix(s: string, a: string)
    requires |a| > 0
    ensures StartsWith(s, Split(s, a)[0])
    decreases |s|
  {
    if s != [] && !StartsWith(s, a) {
      FirstPieceIsPrefix(s[1..], a);
      var p0 := Split(s[1..], a)[0];
      assert Split(s, a)[0] == [s[0]] + p0;
      assert s[..|p0| + 1] == [s[0]] + s[1..][..|p0|];
    }
  }

  // ---------------------------------------------------------------------
  // Density normalisation is idempotent

  /** Normalisation keeps the first character: a density command starts with
      the caret that also starts its replacement. */
  lemma NormalizeFirstChar(t: string)
    ensures (NormalizeDensity(t) == []) == (t == [])
    ensures t != [] ==> NormalizeDensity(t)[0] == t[0]
  {
  }

  /** Text without a caret passes through normalisation untouched, and
      the rest of the text is normalised on its own. */
  lemma {:induction false} NormalizeCaretFree(u: string, v: string)
    requires '^' !in u
    ensures NormalizeDensity(u + v) == u + NormalizeDensity(v)
    decreases |u|
  {
    if u != [] {
      assert (u + v)[0] == u[0] && (u + v)[1..] == u[1..] + v;
      assert '^' !in u[1..] by {
        forall c | c in u[1..] ensures c in u { }
      }
      NormalizeCaretFree(u[1..], v);
      assert u == [u[0]] + u[1..];
    } else {
      assert u + v == v;
    }
  }

  /** The automaton never reads past text that ends or runs into a caret. */
  lemma {:induction false} PrArgsTail(u: string, w: string, st: nat)
    requires 1 <= st <= 6 && (w == [] || w[0] == '^')
    ensures PrArgs(u + w, st) == PrArgs(u, st)
    decreases |u|
  {
    if u == [] {
      assert u + w == w;
    } else {
      assert (u + w)[0] == u[0] && (u + w)[1..] == u[1..] + w;
      if st == 6 {
        PrArgsTail(u[1..], w, 6);
      } else {
        var c := u[0];
        var next :=
          if st == 1 then (if c == 'P' then 2 else 0)
          else if st == 2 then (if c == 'R' then 3 else 0)
          else if st == 3 then (if IsDigit(c) then 4 else 0)
          else if st == 4 then (if IsDigit(c) then 4 else if c == ',' then 5 else 0)
          else (if IsDigit(c) then 6 else 0);
        if next != 0 {
          PrArgsTail(u[1..], w, next);
        }
      }
    }
  }

  /** One step of the automaton before a state-6 run. */
  lemma PrArgsPush(t: string, st: nat, next: nat)
    requires 1 <= st < 6 && |t| > 1 && 2 <= next <= 6
    requires next == (if st == 1 then (if t[0] == 'P' then 2 else 0)
      else if st == 2 then (if t[0] == 'R' then 3 else 0)
      else if st == 3 then (if IsDigit(t[0]) then 4 else 0)
      else if st == 4 then (if IsDigit(t[0]) then 4 else if t[0] == ',' then 5 else 0)
      else (if IsDigit(t[0]) then 6 else 0))
    requires PrArgs(t[1..], next) >= 0
    ensures PrArgs(t, st) == PrArgs(t[1..], next) + 1
  {
  }

  /** `^PR12,12` is itself a density command of length 8, when it is not
      followed by a digit. */
  lemma CanonicalMatch(w: string)
    requires w == [] || !IsDigit(w[0])
    ensures DensityMatch(CanonicalDensity + w) == |CanonicalDensity|
  {
    var x := CanonicalDensity + w;
    CanonicalArgs(w);
    assert x[0] == '^';
  }

  lemma CanonicalArgs(w: string)
    requires w == [] || !IsDigit(w[0])
    ensures PrArgs((CanonicalDensity + w)[1..], 1) == 7
  {
    var x := CanonicalDensity + w;
    assert x[1] == 'P' && x[2] == 'R' && x[3] == '1' && x[4] == '2';
    assert x[5] == ',' && x[6] == '1' && x[7] == '2' && x[8..] == w;
    assert x[8..] == x[7..][1..] && x[7..] == x[6..][1..] && x[6..] == x[5..][1..];
    assert x[5..] == x[4..][1..] && x[4..] == x[3..][1..] && x[3..] == x[2..][1..];
    assert x[2..] == x[1..][1..];
    assert PrArgs(x[7..], 6) == 1;
    PrArgsPush(x[6..], 5, 6);
    PrArgsPush(x[5..], 4, 5);
    PrArgsPush(x[4..], 4, 4);
    PrArgsPush(x[3..], 3, 4);
    PrArgsPush(x[2..], 2, 3);
    PrArgsPush(x[1..], 1, 2);
  }

  /** Length of the longest caret-free prefix. */
  function CaretFreeLength(t: string): (k: nat)
    ensures k <= |t| && '^' !in t[..k] && (k == |t| || t[k] == '^')
  {
    if t == [] || t[0] == '^' then 0
    else
      var k := CaretFreeLength(t[1..]);
      assert t[..k + 1] == [t[0]] + t[1..][..k];
      k + 1
  }

  /** Normalising twice is normalising once: every density command left in
      the output is already `^PR12,12`. */
  lemma {:induction false} NormalizeIdempotent(s: string)
    ensures NormalizeDensity(NormalizeDensity(s)) == NormalizeDensity(s)
    decreases |s|, 1
  {
    if s != [] {
      if DensityMatch(s) > 0 {
        IdempotentAtCommand(s);
      } else if s[0] != '^' {
        IdempotentAtPlain(s);
      } else {
        IdempotentAtCaret(s);
      }
    }
  }

  lemma {:induction false} IdempotentAtCommand(s: string)
    requires DensityMatch(s) > 0
    ensures NormalizeDensity(NormalizeDensity(s)) == NormalizeDensity(s)
    decreases |s|, 0
  {
    var m := DensityMatch(s);
    var w := NormalizeDensity(s[m..]);
    assert NormalizeDensity(s) == CanonicalDensity + w;
    NormalizeFirstChar(s[m..]);
    CanonicalMatch(w);
    assert (CanonicalDensity + w)[|CanonicalDensity|..] == w;
    NormalizeIdempotent(s[m..]);
  }

  lemma {:induction false} IdempotentAtPlain(s: string)
    requires s != [] && DensityMatch(s) == 0 && s[0] != '^'
    ensures NormalizeDensity(NormalizeDensity(s)) == NormalizeDensity(s)
    decreases |s|, 0
  {
    var w := NormalizeDensity(s[1..]);
    var r := [s[0]] + w;
    assert NormalizeDensity(s) == r;
    assert DensityMatch(r) == 0;
    assert r[1..] == w;
    NormalizeIdempotent(s[1..]);
  }

  lemma {:induction false} IdempotentAtCaret(s: string)
    requires s != [] && DensityMatch(s) == 0 && s[0] == '^'
    ensures NormalizeDensity(NormalizeDensity(s)) == NormalizeDensity(s)
    decreases |s|, 0
  {
    var t := s[1..];
    var r := ['^'] + NormalizeDensity(t);
    CopyStep(s, Density, CanonicalDensity);
    assert NormalizeDensity(s) == r;
    CaretStaysPlain(s);
    CopyStep(r, Density, CanonicalDensity);
    assert r[1..] == NormalizeDensity(t);
    NormalizeIdempotent(t);
  }

  /** One step of the scan at a position where nothing matches. */
  lemma CopyStep(s: string, p: Pattern, b: string)
    requires s != [] && MatchLength(p, s) == 0
    ensures RewriteAll(s, p, b) == [s[0]] + RewriteAll(s[1..], p, b)
  {
  }

  /** A caret that starts no density command starts none after the rest of
      the text is normalised. */
  lemma CaretStaysPlain(s: string)
    requires s != [] && DensityMatch(s) == 0 && s[0] == '^'
    ensures DensityMatch(['^'] + NormalizeDensity(s[1..])) == 0
  {
    var t := s[1..];
    var k := CaretFreeLength(t);
    var u, v := t[..k], t[k..];
    assert t == u + v;
    NormalizeCaretFree(u, v);
    NormalizeFirstChar(v);
    var nv := NormalizeDensity(v);
    assert NormalizeDensity(t) == u + nv;
    CaretHead(t);
    PrArgsTail(u, v, 1);
    PrArgsTail(u, nv, 1);
    CaretHead(u + nv);
  }

  lemma CaretHead(x: string)
    ensures DensityMatch(['^'] + x) == 0 <==> PrArgs(x, 1) < 0
  {
    assert (['^'] + x)[1..] == x;
  }

  // ---------------------------------------------------------------------
  // Replacing around a known prefix

  /** A prefix without the first character of the pattern is copied. */
  lemma {:induction false} LiteralSkip(u: string, v: string, a: string, b: string)
    requires |a| > 0 && a[0] !in u
    ensures ReplaceAll(u + v, a, b) == u + ReplaceAll(v, a, b)
    decreases |u|
  {
    if u != [] {
      NotInTail(u, a[0]);
      assert (u + v)[0] == u[0] && (u + v)[1..] == u[1..] + v;
      MissAtHead(u + v, a);
      LiteralMiss(u + v, a, b);
      LiteralSkip(u[1..], v, a, b);
      assert u == [u[0]] + u[1..];
    } else {
      assert u + v == v;
    }
  }

  lemma NotInTail(u: string, c: char)
    requires u != [] && c !in u
    ensures u[0] != c && c !in u[1..]
  {
    assert u[0] in u;
    forall d | d in u[1..] ensures d in u { }
  }

  lemma MissAtHead(s: string, a: string)
    requires s != [] && |a| > 0 && s[0] != a[0]
    ensures !StartsWith(s, a)
  {
    if |a| <= |s| {
      assert s[..|a|][0] == s[0];
    }
  }

  /** An occurrence of the pattern at the front is replaced. */
  lemma LiteralHead(a: string, v: string, b: string)
    requires |a| > 0
    ensures ReplaceAll(a + v, a, b) == b + ReplaceAll(v, a, b)
  {
    assert (a + v)[..|a|] == a && (a + v)[|a|..] == v;
  }

  /** A first character at which the pattern does not start is copied. */
  lemma LiteralMiss(s: string, a: string, b: string)
    requires |a| > 0 && s != [] && !StartsWith(s, a)
    ensures ReplaceAll(s, a, b) == [s[0]] + ReplaceAll(s[1..], a, b)
  {
  }

  /** A text without the first character of `x`, followed by one without `x`,
      has no `x`. */
  lemma {:induction false} AbsentAcross(u: string, v: string, x: string)
    requires |x| > 0 && x[0] !in u && !Occurs(v, x)
    ensures !Occurs(u + v, x)
    decreases |u|
  {
    if u != [] {
      assert (u + v)[0] == u[0] && (u + v)[1..] == u[1..] + v;
      assert u[0] in u;
      assert x[0] !in u[1..] by {
        forall c | c in u[1..] ensures c in u { }
      }
      AbsentAcross(u[1..], v, x);
    } else {
      assert u + v == v;
    }
  }
}
