/** What all modules share: options, minima, distinct lists, and strings as the programs treat
    them (decimal digits, lexicographic order, splitting on a separator, trimming). */
module Text {

  datatype Option<+T> = None | Some(value: T)

  function Min(a: int, b: int): int { if a <= b then a else b }

  predicate Distinct<T(==)>(s: seq<T>) { forall i, j :: 0 <= i < j < |s| ==> s[i] != s[j] }

  // ---- Lexicographic order (Rust's and Nix's string order). ----

  predicate LexLess(a: string, b: string) {
    b != [] && (a == [] || a[0] < b[0] || (a[0] == b[0] && LexLess(a[1..], b[1..])))
  }

  lemma {:induction false} LexIrreflexive(a: string)
    ensures !LexLess(a, a)
  {
    if a != [] { LexIrreflexive(a[1..]); }
  }

  lemma {:induction false} LexTransitive(a: string, b: string, c: string)
    requires LexLess(a, b) && LexLess(b, c)
    ensures LexLess(a, c)
  {
    if a != [] && a[0] == b[0] && b[0] == c[0] { LexTransitive(a[1..], b[1..], c[1..]); }
  }

  lemma {:induction false} LexTotal(a: string, b: string)
    ensures LexLess(a, b) || a == b || LexLess(b, a)
  {
    if a != [] && b != [] && a[0] == b[0] {
      LexTotal(a[1..], b[1..]);
      if a[1..] == b[1..] { assert a == [a[0]] + a[1..] == b; }
    }
  }

  lemma LexAsymmetric(a: string, b: string)
    requires LexLess(a, b)
    ensures !LexLess(b, a) && a != b
  {
    if LexLess(b, a) { LexTransitive(a, b, a); }
    LexIrreflexive(a);
  }

  /** A common prefix does not matter ... */
  lemma {:induction false} LexPrefix(x: string, u: string, v: string)
    requires LexLess(u, v)
    ensures LexLess(x + u, x + v)
  {
    if x == [] {
      assert x + u == u && x + v == v;
    } else {
      LexPrefix(x[1..], u, v);
      assert (x + u)[1..] == x[1..] + u && (x + v)[1..] == x[1..] + v;
    }
  }

  /** ... and a difference within equal lengths decides. */
  lemma {:induction false} LexHead(x: string, y: string, u: string, v: string)
    requires |x| == |y| && LexLess(x, y)
    ensures LexLess(x + u, y + v)
  {
    if x[0] == y[0] {
      LexHead(x[1..], y[1..], u, v);
      assert (x + u)[1..] == x[1..] + u && (y + v)[1..] == y[1..] + v;
    }
  }

  // ---- Decimal numerals. ----

  predicate IsDigit(c: char) { '0' <= c <= '9' }

  function Digit(d: int): char
    requires 0 <= d < 10
  {
    ['0', '1', '2', '3', '4', '5', '6', '7', '8', '9'][d]
  }

  function Dec(n: nat): (s: string)
    ensures s != [] && forall c <- s :: IsDigit(c)
  {
    if n < 10 then [Digit(n)] else Dec(n / 10) + [Digit(n % 10)]
  }

  /** `n` zero-padded to at least `width` digits, as `{n:0width}` prints it. */
  function Pad(n: nat, width: nat): string {
    var s := Dec(n);
    if |s| < width then Zeros(width - |s|) + s else s
  }

  function Zeros(k: nat): (s: string)
    ensures |s| == k && forall c <- s :: c == '0'
  {
    if k == 0 then [] else ['0'] + Zeros(k - 1)
  }

  function Val(s: string): nat
    requires forall c <- s :: IsDigit(c)
  {
    if s == [] then 0 else assert IsDigit(s[|s| - 1]); Val(s[..|s| - 1]) * 10 + (s[|s| - 1] as int - '0' as int)
  }

  lemma {:induction false} ValDec(n: nat)
    ensures Val(Dec(n)) == n
  {
    var s := Dec(n);
    if n >= 10 {
      ValDec(n / 10);
      assert s[..|s| - 1] == Dec(n / 10);
    } else {
      assert s[..|s| - 1] == [];
    }
  }

  /** Rust's `parse` for an unsigned integer of at most `max`: an optional `+`, then digits. */
  function ParseUnsigned(s: string, max: nat): Option<nat> {
    var t := if s != [] && s[0] == '+' then s[1..] else s;
    if t != [] && (forall c <- t :: IsDigit(c)) && Val(t) <= max then Some(Val(t)) else None
  }

  lemma ParseDec(n: nat, max: nat)
    requires n <= max
    ensures ParseUnsigned(Dec(n), max) == Some(n)
  {
    ValDec(n);
    assert IsDigit(Dec(n)[0]);
  }

  // ---- Splitting, joining, trimming. ----

  function Split(s: string, sep: char): (parts: seq<string>)
    ensures parts != []
  {
    if s == [] then [[]]
    else
      var rest := Split(s[1..], sep);
      if s[0] == sep then [[]] + rest else [[s[0]] + rest[0]] + rest[1..]
  }

  function Join(parts: seq<string>, sep: char): string {
    if parts == [] then [] else if |parts| == 1 then parts[0] else parts[0] + [sep] + Join(parts[1..], sep)
  }

  lemma {:induction false} SplitPlain(s: string, sep: char)
    requires sep !in s
    ensures Split(s, sep) == [s]
  {
    if s != [] {
      SplitPlain(s[1..], sep);
      assert [s[0]] + s[1..] == s;
    }
  }

  /** A separator splits: the pieces of `a + [sep] + b` are those of `a`, then those of `b`. */
  lemma {:induction false} SplitConcat(a: string, b: string, sep: char)
    ensures Split(a + [sep] + b, sep) == Split(a, sep) + Split(b, sep)
  {
    if a == [] {
      SplitCons(sep, b, sep);
      assert a + [sep] + b == [sep] + b;
    } else {
      SplitConcat(a[1..], b, sep);
      SplitCons(a[0], a[1..] + [sep] + b, sep);
      assert [a[0]] + (a[1..] + [sep] + b) == a + [sep] + b;
      SplitCons(a[0], a[1..], sep);
      assert [a[0]] + a[1..] == a;
      ConsPieces(a[0], Split(a[1..], sep), Split(b, sep), sep);
    }
  }

  /** How one more leading character changes the pieces. */
  function Cons(c: char, parts: seq<string>, sep: char): seq<string>
    requires parts != []
  {
    if c == sep then [[]] + parts else [[c] + parts[0]] + parts[1..]
  }

  lemma SplitCons(c: char, s: string, sep: char)
    ensures Split([c] + s, sep) == Cons(c, Split(s, sep), sep)
  {
    assert ([c] + s)[1..] == s;
  }

  lemma ConsPieces(c: char, parts: seq<string>, more: seq<string>, sep: char)
    requires parts != []
    ensures Cons(c, parts + more, sep) == Cons(c, parts, sep) + more
  {
    assert (parts + more)[1..] == parts[1..] + more;
  }

  lemma {:induction false} SplitJoin(parts: seq<string>, sep: char)
    requires parts != [] && forall p <- parts :: sep !in p
    ensures Split(Join(parts, sep), sep) == parts
  {
    SplitPlain(parts[0], sep);
    if |parts| == 1 {
      assert parts == [parts[0]];
    } else {
      SplitConcat(parts[0], Join(parts[1..], sep), sep);
      SplitJoin(parts[1..], sep);
      assert parts == [parts[0]] + parts[1..];
    }
  }

  lemma {:induction false} SplitParts(s: string, sep: char)
    ensures forall p <- Split(s, sep) :: sep !in p
  {
    if s != [] {
      SplitParts(s[1..], sep);
    }
  }

  /** `p` stands in `s` at `i`, from one separator or end to the next. */
  predicate PieceAt(s: string, p: string, i: int, sep: char) {
    && 0 <= i && i + |p| <= |s| && s[i..i + |p|] == p
    && (i > 0 ==> s[i - 1] == sep) && (i + |p| < |s| ==> s[i + |p|] == sep)
  }

  lemma {:induction false} FirstSep(s: string, sep: char) returns (k: nat)
    requires sep in s
    ensures k < |s| && s[k] == sep && sep !in s[..k]
  {
    if s[0] == sep {
      k := 0;
    } else {
      var j := FirstSep(s[1..], sep);
      k := j + 1;
      assert s[..k] == [s[0]] + s[1..][..j];
    }
  }

  /** A separator-free stretch between separators. */
  ghost predicate IsPiece(s: string, p: string, sep: char) { sep !in p && exists i :: PieceAt(s, p, i, sep) }

  /** The pieces are exactly those. */
  lemma {:induction false} SplitPieces(s: string, p: string, sep: char)
    ensures p in Split(s, sep) <==> IsPiece(s, p, sep)
    decreases |s|
  {
    hide IsPiece;
    if sep !in s {
      SplitPlain(s, sep);
      OnlyPiece(s, p, sep);
    } else {
      var k := FirstSep(s, sep);
      var a, b := s[..k], s[k + 1..];
      SplitPieces(b, p, sep);
      FirstPiece(s, b, p, k, sep);
      assert s == a + [sep] + b;
      SplitConcat(a, b, sep);
      SplitPlain(a, sep);
      hide Split;
    }
  }

  lemma OnlyPiece(s: string, p: string, sep: char)
    requires sep !in s
    ensures p == s <==> IsPiece(s, p, sep)
  {
    assert forall j :: 0 <= j < |s| ==> s[j] != sep;
    assert s[0..|s|] == s && PieceAt(s, s, 0, sep);
  }

  lemma FirstPiece(s: string, b: string, p: string, k: nat, sep: char)
    requires k < |s| && s[k] == sep && sep !in s[..k] && b == s[k + 1..]
    ensures IsPiece(s, p, sep) <==> p == s[..k] || IsPiece(b, p, sep)
  {
    FirstOnly(s, p, k, sep);
    forall i | i > k ensures PieceAt(s, p, i, sep) <==> PieceAt(b, p, i - k - 1, sep) { LaterPiece(s, p, k, i, sep); }
    if j :| PieceAt(b, p, j, sep) { LaterPiece(s, p, k, j + k + 1, sep); }
  }

  lemma FirstOnly(s: string, p: string, k: nat, sep: char)
    requires k < |s| && s[k] == sep && sep !in s[..k]
    ensures PieceAt(s, s[..k], 0, sep)
    ensures forall i :: i <= k && sep !in p && PieceAt(s, p, i, sep) ==> p == s[..k]
  {
    assert s[0..0 + |s[..k]|] == s[..k];
    assert forall j :: 0 <= j < k ==> s[..k][j] == s[j] && s[j] in s[..k];
    forall i | i <= k && sep !in p && PieceAt(s, p, i, sep) ensures p == s[..k] {
      assert i == 0 && forall j :: 0 <= j < |p| ==> s[0..|p|][j] == s[j] && s[j] in p;
      assert |p| <= k;
    }
  }

  lemma LaterPiece(s: string, p: string, k: nat, i: int, sep: char)
    requires k < |s| && s[k] == sep && i > k
    ensures PieceAt(s, p, i, sep) <==> PieceAt(s[k + 1..], p, i - k - 1, sep)
  {
    var b, j := s[k + 1..], i - k - 1;
    assert i + |p| <= |s| ==> b[j..j + |p|] == s[i..i + |p|];
  }

  /** White_Space of the Unicode Character Database, which Rust's `trim` removes. */
  predicate IsSpace(c: char) {
    var n := c as int;
    9 <= n <= 13 || n == 32 || n == 0x85 || n == 0xA0 || n == 0x1680 || 0x2000 <= n <= 0x200A
    || n == 0x2028 || n == 0x2029 || n == 0x202F || n == 0x205F || n == 0x3000
  }

  function TrimStart(s: string, drop: char -> bool): string {
    if s != [] && drop(s[0]) then TrimStart(s[1..], drop) else s
  }

  function TrimEnd(s: string, drop: char -> bool): string {
    if s != [] && drop(s[|s| - 1]) then TrimEnd(s[..|s| - 1], drop) else s
  }

  function Trim(s: string): string {
    TrimEnd(TrimStart(s, IsSpace), IsSpace)
  }

  lemma {:induction false} TrimStartIs(s: string, drop: char -> bool) returns (pre: string)
    ensures s == pre + TrimStart(s, drop) && forall c <- pre :: drop(c)
    ensures TrimStart(s, drop) != "" ==> !drop(TrimStart(s, drop)[0])
  {
    if s != [] && drop(s[0]) {
      var rest := TrimStartIs(s[1..], drop);
      pre := [s[0]] + rest;
      assert s == [s[0]] + s[1..];
    } else {
      pre := "";
      assert "" + s == s;
    }
  }

  lemma {:induction false} TrimEndIs(s: string, drop: char -> bool) returns (post: string)
    ensures s == TrimEnd(s, drop) + post && forall c <- post :: drop(c)
    ensures TrimEnd(s, drop) != "" ==> !drop(TrimEnd(s, drop)[|TrimEnd(s, drop)| - 1])
  {
    if s != [] && drop(s[|s| - 1]) {
      var rest := TrimEndIs(s[..|s| - 1], drop);
      post := rest + [s[|s| - 1]];
      assert s == s[..|s| - 1] + [s[|s| - 1]];
    } else {
      post := "";
      assert s + "" == s;
    }
  }

  /** `Trim` takes off the spaces at the ends, and only those. */
  lemma TrimIs(s: string) returns (pre: string, post: string)
    ensures s == pre + Trim(s) + post && (forall c <- pre + post :: IsSpace(c))
    ensures Trim(s) != "" ==> !IsSpace(Trim(s)[0]) && !IsSpace(Trim(s)[|Trim(s)| - 1])
  {
    pre := TrimStartIs(s, IsSpace);
    post := TrimEndIs(TrimStart(s, IsSpace), IsSpace);
    assert Trim(s) != "" ==> Trim(s)[0] == TrimStart(s, IsSpace)[0];
  }

  /** The first whitespace-separated token, if any. */
  function FirstToken(s: string): Option<string> {
    var t := TrimStart(s, IsSpace);
    if t == [] then None else Some(Token(t))
  }

  function Token(s: string): string {
    if s == [] || IsSpace(s[0]) then [] else [s[0]] + Token(s[1..])
  }

  lemma {:induction false} TokenThenSpace(t: string, rest: string)
    requires forall c <- t :: !IsSpace(c)
    requires rest == [] || IsSpace(rest[0])
    ensures Token(t + rest) == t
  {
    if t == [] {
      assert t + rest == rest;
    } else {
      TokenThenSpace(t[1..], rest);
      assert (t + rest)[1..] == t[1..] + rest;
      assert t == [t[0]] + t[1..];
    }
  }

  predicate HasPrefix(s: string, p: string) { |p| <= |s| && s[..|p|] == p }
}
