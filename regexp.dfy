/**
 * The fragment of ECMAScript regular expressions that the form schemas use:
 * character classes, concatenation, the `?` quantifier and fixed repetition
 * `{n}`. `Ends` is the recogniser (the positions a pattern can reach from a
 * start position); `InLang` is the declarative language of a pattern, and
 * `EndsIffInLang` proves that the two agree.
 */
module RegExp {

  /** `\d` and `[0-9]`: the ASCII digits only (no Unicode digits without the `u` flag). */
  predicate IsDigit(c: char) { '0' <= c <= '9' }

  /** `[A-Z]` */
  predicate IsUpper(c: char) { 'A' <= c <= 'Z' }

  /** `[a-z]` */
  predicate IsLower(c: char) { 'a' <= c <= 'z' }

  /** `[a-zA-Z0-9]` */
  predicate IsAlnum(c: char) { IsUpper(c) || IsLower(c) || IsDigit(c) }

  /**
   * `\s`: the ECMAScript WhiteSpace and LineTerminator code points
   * (tab, line feed, vertical tab, form feed, carriage return, space,
   * no-break space, the Zs space separators, line and paragraph separators
   * and the byte-order mark).
   */
  predicate IsWhitespace(c: char) {
    var n := c as int;
    (0x09 <= n <= 0x0D) || n == 0x20 || n == 0xA0 || n == 0x1680
    || (0x2000 <= n <= 0x200A) || n == 0x2028 || n == 0x2029
    || n == 0x202F || n == 0x205F || n == 0x3000 || n == 0xFEFF
  }

  /** The character classes that occur in the schemas. */
  datatype CharClass =
    | Literal(ch: char)  // a character standing for itself, such as `\+` or `\(`
    | Digit              // `\d`, `[0-9]`
    | Space              // `\s`
    | Upper              // `[A-Z]`
    | Lower              // `[a-z]`
    | NotAlnum           // `[^a-zA-Z0-9]`
    | SpaceDotDash       // `[\s.-]`

  predicate Holds(cls: CharClass, c: char) {
    match cls
    case Literal(d) => c == d
    case Digit => IsDigit(c)
    case Space => IsWhitespace(c)
    case Upper => IsUpper(c)
    case Lower => IsLower(c)
    case NotAlnum => !IsAlnum(c)
    case SpaceDotDash => IsWhitespace(c) || c == '.' || c == '-'
  }

  /** Patterns: the empty pattern, one character, concatenation and `?`. */
  datatype Regex =
    | Empty
    | One(cls: CharClass)
    | Cat(first: Regex, second: Regex)
    | Opt(body: Regex)

  /** `r{n}`: `n` copies of `r` one after another. */
  function Repeat(r: Regex, n: nat): Regex {
    if n == 0 then Empty else Cat(r, Repeat(r, n - 1))
  }

  /**
   * The positions `j` such that `r` matches `s[i..j]`: the set of states a
   * backtracking matcher can reach after `r` when it starts at `i`.
   */
  function Ends(r: Regex, s: string, i: nat): (js: set<nat>)
    requires i <= |s|
    ensures forall j :: j in js ==> i <= j <= |s|
    decreases r
  {
    match r
    case Empty => {i}
    case One(cls) => if i < |s| && Holds(cls, s[i]) then {i + 1} else {}
    case Cat(a, b) => set k, j | k in Ends(a, s, i) && j in Ends(b, s, k) :: j
    case Opt(a) => {i} + Ends(a, s, i)
  }

  /** `/^r$/.test(s)` (no flags): `r` matches the whole of `s`. */
  predicate WholeMatch(r: Regex, s: string)
    ensures WholeMatch(r, s) <==> InLang(r, s)
  {
    EndsIffInLang(r, s, 0, |s|);
    assert s[0..|s|] == s;
    |s| in Ends(r, s, 0)
  }

  /** Some match of `r` starts at position `i` of `s`. */
  predicate MatchesAt(r: Regex, s: string, i: nat)
    requires i <= |s|
  {
    Ends(r, s, i) != {}
  }

  /** `/r/.test(s)` (no anchors, no flags): `r` matches somewhere in `s`. */
  predicate Search(r: Regex, s: string)
    ensures Search(r, s) <==> exists i, j | 0 <= i <= j <= |s| :: InLang(r, s[i..j])
  {
    SomeStartIffSomeInLang(r, s);
    exists i: nat | i <= |s| :: MatchesAt(r, s, i)
  }

  /** The language of a pattern: the strings it matches in full. */
  ghost predicate InLang(r: Regex, w: string)
    decreases r
  {
    match r
    case Empty => w == []
    case One(cls) => |w| == 1 && Holds(cls, w[0])
    case Cat(a, b) => exists k | 0 <= k <= |w| :: InLang(a, w[..k]) && InLang(b, w[k..])
    case Opt(a) => w == [] || InLang(a, w)
  }

  /** Every position the recogniser reaches ends a word of the language. */
  lemma {:induction false} EndsInLang(r: Regex, s: string, i: nat, j: nat)
    requires i <= |s| && j in Ends(r, s, i)
    ensures InLang(r, s[i..j])
    decreases r
  {
    match r
    case Empty =>
    case One(cls) =>
    case Opt(a) =>
      if j in Ends(a, s, i) { EndsInLang(a, s, i, j); }
    case Cat(a, b) =>
      var k :| k in Ends(a, s, i) && j in Ends(b, s, k);
      EndsInLang(a, s, i, k);
      EndsInLang(b, s, k, j);
      assert s[i..j][..k - i] == s[i..k];
      assert s[i..j][k - i..] == s[k..j];
  }

  /** Every word of the language starting at `i` ends at a position the recogniser reaches. */
  lemma {:induction false} InLangEnds(r: Regex, s: string, i: nat, j: nat)
    requires i <= j <= |s| && InLang(r, s[i..j])
    ensures j in Ends(r, s, i)
    decreases r
  {
    match r
    case Empty =>
    case One(cls) =>
    case Opt(a) =>
      if s[i..j] != [] { InLangEnds(a, s, i, j); }
    case Cat(a, b) =>
      var w := s[i..j];
      var m :| 0 <= m <= |w| && InLang(a, w[..m]) && InLang(b, w[m..]);
      assert w[..m] == s[i..i + m];
      assert w[m..] == s[i + m..j];
      InLangEnds(a, s, i, i + m);
      InLangEnds(b, s, i + m, j);
  }

  /** The recogniser reaches `j` from `i` exactly when `s[i..j]` is in the language. */
  lemma EndsIffInLang(r: Regex, s: string, i: nat, j: nat)
    requires i <= j <= |s|
    ensures j in Ends(r, s, i) <==> InLang(r, s[i..j])
  {
    if j in Ends(r, s, i) { EndsInLang(r, s, i, j); }
    if InLang(r, s[i..j]) { InLangEnds(r, s, i, j); }
  }

  /** The recogniser reaches some position from some start exactly when some slice is in the language. */
  lemma SomeStartIffSomeInLang(r: Regex, s: string)
    ensures (exists i: nat | i <= |s| :: MatchesAt(r, s, i)) <==>
            exists i, j | 0 <= i <= j <= |s| :: InLang(r, s[i..j])
  {
    if exists i: nat | i <= |s| :: MatchesAt(r, s, i) {
      var i: nat :| i <= |s| && MatchesAt(r, s, i);
      var j :| j in Ends(r, s, i);
      EndsInLang(r, s, i, j);
    }
    if exists i, j | 0 <= i <= j <= |s| :: InLang(r, s[i..j]) {
      var i, j :| 0 <= i <= j <= |s| && InLang(r, s[i..j]);
      InLangEnds(r, s, i, j);
      assert MatchesAt(r, s, i);
    }
  }

  /** A one-class search such as `/[A-Z]/.test(s)` finds a character of that class. */
  lemma SearchOneIffSome(cls: CharClass, s: string)
    ensures Search(One(cls), s) <==> exists k | 0 <= k < |s| :: Holds(cls, s[k])
  {
    if Search(One(cls), s) {
      var i: nat :| i <= |s| && MatchesAt(One(cls), s, i);
      assert i < |s| && Holds(cls, s[i]);
    }
    if exists k | 0 <= k < |s| :: Holds(cls, s[k]) {
      var k :| 0 <= k < |s| && Holds(cls, s[k]);
      assert k + 1 in Ends(One(cls), s, k);
      assert MatchesAt(One(cls), s, k);
    }
  }

  /** Concatenation of two words of the parts' languages is in the language of `Cat`. */
  lemma CatIntro(a: Regex, b: Regex, u: string, v: string)
    requires InLang(a, u) && InLang(b, v)
    ensures InLang(Cat(a, b), u + v)
  {
    assert (u + v)[..|u|] == u;
    assert (u + v)[|u|..] == v;
  }

  /** Three-way concatenation: `Cat(a, Cat(b, c))` matches `u + v + w`. */
  lemma Cat3Intro(a: Regex, b: Regex, c: Regex, u: string, v: string, w: string)
    requires InLang(a, u) && InLang(b, v) && InLang(c, w)
    ensures InLang(Cat(a, Cat(b, c)), u + (v + w))
  {
    CatIntro(b, c, v, w);
    CatIntro(a, Cat(b, c), u, v + w);
  }

  /** Four-way concatenation: `Cat(a, Cat(b, Cat(c, d)))` matches `t + u + v + w`. */
  lemma Cat4Intro(a: Regex, b: Regex, c: Regex, d: Regex, t: string, u: string, v: string, w: string)
    requires InLang(a, t) && InLang(b, u) && InLang(c, v) && InLang(d, w)
    ensures InLang(Cat(a, Cat(b, Cat(c, d))), t + (u + (v + w)))
  {
    Cat3Intro(b, c, d, u, v, w);
    CatIntro(a, Cat(b, Cat(c, d)), t, u + (v + w));
  }

  /** Splits a word of `Cat(a, b)` into a word of `a` followed by a word of `b`. */
  lemma CatSplit(a: Regex, b: Regex, w: string) returns (u: string, v: string)
    requires InLang(Cat(a, b), w)
    ensures w == u + v && InLang(a, u) && InLang(b, v)
  {
    var k :| 0 <= k <= |w| && InLang(a, w[..k]) && InLang(b, w[k..]);
    u, v := w[..k], w[k..];
    assert w == u + v;
  }

  /** Every character of `w` is in class `cls`. */
  predicate AllIn(cls: CharClass, w: string) {
    forall m | 0 <= m < |w| :: Holds(cls, w[m])
  }

  /** A slice of a word made of class `cls` is made of class `cls`. */
  lemma AllInSlice(cls: CharClass, w: string, i: nat, j: nat)
    requires AllIn(cls, w) && i <= j <= |w|
    ensures AllIn(cls, w[i..j])
  {
    forall m | 0 <= m < j - i ensures Holds(cls, w[i..j][m]) {
      assert w[i..j][m] == w[i + m];
    }
  }

  /** Every word of `c{n}` has length `n` and only characters of class `c`. */
  lemma {:induction false} RepeatOneSound(cls: CharClass, n: nat, w: string)
    requires InLang(Repeat(One(cls), n), w)
    ensures |w| == n && AllIn(cls, w)
    decreases n
  {
    if n > 0 {
      var u, v := CatSplit(One(cls), Repeat(One(cls), n - 1), w);
      RepeatOneSound(cls, n - 1, v);
      forall m | 0 <= m < |w| ensures Holds(cls, w[m]) {
        if m > 0 { assert w[m] == v[m - 1]; }
      }
    }
  }

  /** Every word of length `n` made of class `c` is a word of `c{n}`. */
  lemma {:induction false} RepeatOneComplete(cls: CharClass, n: nat, w: string)
    requires |w| == n && AllIn(cls, w)
    ensures InLang(Repeat(One(cls), n), w)
    decreases n
  {
    if n > 0 {
      var u, v := w[..1], w[1..];
      assert AllIn(cls, v) by {
        forall m | 0 <= m < |v| ensures Holds(cls, v[m]) { assert v[m] == w[m + 1]; }
      }
      RepeatOneComplete(cls, n - 1, v);
      assert InLang(One(cls), u);
      CatIntro(One(cls), Repeat(One(cls), n - 1), u, v);
      assert u + v == w;
    }
  }

  /** `c{n}` matches exactly the words of length `n` made of class `c`. */
  lemma RepeatOneIff(cls: CharClass, n: nat, w: string)
    ensures InLang(Repeat(One(cls), n), w) <==> |w| == n && AllIn(cls, w)
  {
    if InLang(Repeat(One(cls), n), w) {
      RepeatOneSound(cls, n, w);
    }
    if |w| == n && AllIn(cls, w) {
      RepeatOneComplete(cls, n, w);
    }
  }

  /** `c?` matches the empty word or a single character of class `c`. */
  lemma OptOneIff(cls: CharClass, w: string)
    ensures InLang(Opt(One(cls)), w) <==> w == [] || (|w| == 1 && Holds(cls, w[0]))
  {
  }
}
