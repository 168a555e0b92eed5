/** The string operations the library leans on: splitting and joining on a
    one-character separator, trimming white space, and the byte order of strings. */
module Text {

  /** `s` with the separator `c` nowhere in it. */
  predicate Free(s: string, c: char) {
    c !in s
  }

  /** The pieces of `s` between separators; always at least one piece. */
  function Split(s: string, c: char): (parts: seq<string>)
    ensures |parts| >= 1
  {
    if s == [] then [""] else Pushed(s[0], Split(s[1..], c), c)
  }

  /** One more character in front: a separator starts a piece of its own. */
  function Pushed(x: char, parts: seq<string>, c: char): (r: seq<string>)
    requires |parts| >= 1
    ensures |r| >= 1
  {
    if x == c then [""] + parts else [[x] + parts[0]] + parts[1..]
  }

  function Join(parts: seq<string>, c: char): string
    requires |parts| >= 1
  {
    if |parts| == 1 then parts[0] else parts[0] + [c] + Join(parts[1..], c)
  }

  lemma {:induction false} SplitFree(s: string, c: char)
    requires Free(s, c)
    ensures Split(s, c) == [s]
  {
    if s != [] {
      SplitFree(s[1..], c);
      assert s == [s[0]] + s[1..];
    }
  }

  lemma PushedConcat(x: char, parts: seq<string>, more: seq<string>, c: char)
    requires |parts| >= 1
    ensures Pushed(x, parts + more, c) == Pushed(x, parts, c) + more
  {
  }

  /** A separator splits what is before it and what is after it apart. */
  lemma {:induction false} SplitConcat(s: string, c: char, rest: string)
    ensures Split(s + [c] + rest, c) == Split(s, c) + Split(rest, c)
  {
    var whole := s + [c] + rest;
    if s == [] {
      assert whole[1..] == rest;
    } else {
      SplitConcat(s[1..], c, rest);
      assert whole[0] == s[0] && whole[1..] == s[1..] + [c] + rest;
      PushedConcat(s[0], Split(s[1..], c), Split(rest, c), c);
    }
  }

  /** The first separator ends the first piece, whatever follows it. */
  lemma SplitAtFirst(s: string, c: char, rest: string)
    requires Free(s, c)
    ensures Split(s + [c] + rest, c) == [s] + Split(rest, c)
  {
    SplitConcat(s, c, rest);
    SplitFree(s, c);
  }

  /** Splitting undoes joining exactly when no piece holds the separator. */
  lemma {:induction false} SplitJoin(parts: seq<string>, c: char)
    requires |parts| >= 1
    ensures Split(Join(parts, c), c) == parts <==> forall p :: p in parts ==> Free(p, c)
  {
    SplitPiecesFree(Join(parts, c), c);
    if forall p :: p in parts ==> Free(p, c) {
      SplitJoinFree(parts, c);
    }
  }

  lemma {:induction false} SplitJoinFree(parts: seq<string>, c: char)
    requires |parts| >= 1
    requires forall p :: p in parts ==> Free(p, c)
    ensures Split(Join(parts, c), c) == parts
  {
    assert parts[0] in parts;
    if |parts| == 1 {
      SplitFree(parts[0], c);
    } else {
      SplitJoinFree(parts[1..], c);
      SplitAtFirst(parts[0], c, Join(parts[1..], c));
      assert Join(parts, c) == parts[0] + [c] + Join(parts[1..], c);
    }
  }

  lemma {:induction false} SplitPiecesFree(s: string, c: char)
    ensures forall p :: p in Split(s, c) ==> Free(p, c)
  {
    if s != [] {
      SplitPiecesFree(s[1..], c);
      var rest := Split(s[1..], c);
      forall p | p in Split(s, c) ensures Free(p, c) {
        assert rest[0] in rest;
      }
    }
  }

  /** White space as Unicode has it. */
  predicate IsSpace(c: char) {
    var n := c as int;
    0x9 <= n <= 0xD || n == 0x20 || n == 0x85 || n == 0xA0 || n == 0x1680 || 0x2000 <= n <= 0x200A
    || n == 0x2028 || n == 0x2029 || n == 0x202F || n == 0x205F || n == 0x3000
  }

  function TrimLeft(s: string): (t: string)
    ensures |t| <= |s| && t == s[|s| - |t|..]
    ensures t != [] ==> !IsSpace(t[0])
  {
    if s != [] && IsSpace(s[0]) then TrimLeft(s[1..]) else s
  }

  function TrimRight(s: string): (t: string)
    ensures t <= s
    ensures t != [] ==> !IsSpace(t[|t| - 1])
  {
    if s != [] && IsSpace(s[|s| - 1]) then TrimRight(s[..|s| - 1]) else s
  }

  function Trim(s: string): (t: string)
    ensures Trimmed(t) && (Trimmed(s) ==> t == s)
  {
    TrimRight(TrimLeft(s))
  }

  /** Trimming changes nothing: no white space at either end. */
  predicate Trimmed(s: string) {
    s == [] || (!IsSpace(s[0]) && !IsSpace(s[|s| - 1]))
  }

  ghost predicate AllSpace(s: string) {
    forall i :: 0 <= i < |s| ==> IsSpace(s[i])
  }

  lemma {:induction false} TrimLeftExact(a: string, u: string)
    requires AllSpace(a)
    ensures TrimLeft(a + u) == TrimLeft(u)
  {
    if a == [] {
      assert a + u == u;
    } else {
      assert (a + u)[1..] == a[1..] + u;
      TrimLeftExact(a[1..], u);
    }
  }

  lemma {:induction false} TrimRightExact(u: string, b: string)
    requires AllSpace(b)
    ensures TrimRight(u + b) == TrimRight(u)
    decreases |b|
  {
    if b == [] {
      assert u + b == u;
    } else {
      assert (u + b)[..|u + b| - 1] == u + b[..|b| - 1];
      TrimRightExact(u, b[..|b| - 1]);
    }
  }

  /** Exactly the white space at both ends goes. */
  lemma TrimExact(a: string, t: string, b: string)
    requires AllSpace(a) && AllSpace(b) && Trimmed(t)
    ensures Trim(a + t + b) == t
  {
    assert a + t + b == a + (t + b);
    TrimLeftExact(a, t + b);
    if t == [] {
      assert t + b == b && b + [] == b;
      TrimLeftExact(b, []);
    } else {
      assert TrimLeft(t + b) == t + b;
      TrimRightExact(t, b);
    }
  }

  /** Byte order of strings, as Go's `<=` on strings. */
  predicate LexLe(a: string, b: string) {
    a == [] || (b != [] && (a[0] < b[0] || (a[0] == b[0] && LexLe(a[1..], b[1..]))))
  }

  lemma {:induction false} LexTotal(a: string, b: string)
    ensures LexLe(a, b) || LexLe(b, a)
  {
    if a != [] && b != [] { LexTotal(a[1..], b[1..]); }
  }

  lemma {:induction false} LexAntisymmetric(a: string, b: string)
    requires LexLe(a, b) && LexLe(b, a)
    ensures a == b
  {
    if a != [] && b != [] {
      LexAntisymmetric(a[1..], b[1..]);
      assert a == [a[0]] + a[1..] && b == [b[0]] + b[1..];
    }
  }

  lemma {:induction false} LexTransitive(a: string, b: string, c: string)
    requires LexLe(a, b) && LexLe(b, c)
    ensures LexLe(a, c)
  {
    if a != [] && b != [] && c != [] && a[0] == b[0] && b[0] == c[0] {
      LexTransitive(a[1..], b[1..], c[1..]);
    }
  }
}
