/**
 * The phone-number pattern of the registration form,
 * `^(\+1\s?)?(\(?\d{3}\)?[\s.-]?)\d{3}[\s.-]?\d{4}$`, and an exact
 * description of the strings it accepts as eight consecutive parts.
 */
module Phone {
  import opened RegExp

  /** `(\+1\s?)?`: an optional `+1`, optionally followed by one whitespace character. */
  const CountryCode: Regex :=
    Opt(Cat(One(Literal('+')), Cat(One(Literal('1')), Opt(One(Space)))))

  /** `(\(?\d{3}\)?[\s.-]?)`: the parentheses are optional independently of each other. */
  const AreaCode: Regex :=
    Cat(Opt(One(Literal('('))),
      Cat(Repeat(One(Digit), 3),
        Cat(Opt(One(Literal(')'))), Opt(One(SpaceDotDash)))))

  /** The pattern between `^` and `$`. */
  const PhonePattern: Regex :=
    Cat(CountryCode,
      Cat(AreaCode,
        Cat(Repeat(One(Digit), 3),
          Cat(Opt(One(SpaceDotDash)), Repeat(One(Digit), 4)))))

  /** What `[\s.-]?` matches: nothing, or one separator character. */
  predicate IsSeparator(w: string) {
    w == [] || (|w| == 1 && Holds(SpaceDotDash, w[0]))
  }

  /** What `(\+1\s?)?` matches. */
  predicate IsCountryCode(w: string) {
    w == [] || (2 <= |w| <= 3 && w[0] == '+' && w[1] == '1' && (|w| == 3 ==> IsWhitespace(w[2])))
  }

  /** A phone number cut into the pieces of the pattern, in order. */
  datatype PhoneParts = PhoneParts(
    country: string, open: string, area: string, close: string,
    sep1: string, exchange: string, sep2: string, line: string)

  predicate WellFormed(p: PhoneParts) {
    && IsCountryCode(p.country)
    && (p.open == [] || p.open == "(")
    && |p.area| == 3 && AllIn(Digit, p.area)
    && (p.close == [] || p.close == ")")
    && IsSeparator(p.sep1)
    && |p.exchange| == 3 && AllIn(Digit, p.exchange)
    && IsSeparator(p.sep2)
    && |p.line| == 4 && AllIn(Digit, p.line)
  }

  /** The parts joined in order, grouped as the pattern groups them. */
  function Text(p: PhoneParts): string {
    p.country + ((p.open + (p.area + (p.close + p.sep1))) + (p.exchange + (p.sep2 + p.line)))
  }

  /** The strings that can be assembled from well-formed parts. */
  ghost predicate IsPhoneNumber(s: string) {
    exists p :: WellFormed(p) && Text(p) == s
  }

  lemma CountryCodeSplit(w: string)
    requires InLang(CountryCode, w)
    ensures IsCountryCode(w)
  {
    var plus, one, space := One(Literal('+')), One(Literal('1')), Opt(One(Space));
    if w != [] {
      var x, yz := CatSplit(plus, Cat(one, space), w);
      var y, z := CatSplit(one, space, yz);
      OptOneIff(Space, z);
      assert w == x + (y + z);
      assert w[0] == x[0] && w[1] == y[0];
      assert |z| == 1 ==> w[2] == z[0];
    }
  }

  lemma CountryCodeJoin(w: string)
    requires IsCountryCode(w)
    ensures InLang(CountryCode, w)
  {
    var plus, one, space := One(Literal('+')), One(Literal('1')), Opt(One(Space));
    if w != [] {
      var x, y, z := w[..1], w[1..2], w[2..];
      assert InLang(plus, x) && InLang(one, y);
      OptOneIff(Space, z);
      Cat3Intro(plus, one, space, x, y, z);
      assert w == x + (y + z);
    }
  }

  /** `(\+1\s?)?` matches exactly the country codes: nothing, `+1`, or `+1` and one whitespace character. */
  lemma CountryCodeIff(w: string)
    ensures InLang(CountryCode, w) <==> IsCountryCode(w)
  {
    if InLang(CountryCode, w) {
      CountryCodeSplit(w);
    }
    if IsCountryCode(w) {
      CountryCodeJoin(w);
    }
  }

  /** What follows the area code: `\d{3}[\s.-]?\d{4}`. */
  const Subscriber: Regex :=
    Cat(Repeat(One(Digit), 3), Cat(Opt(One(SpaceDotDash)), Repeat(One(Digit), 4)))

  lemma AreaCodeSplit(w: string) returns (op: string, digits: string, cl: string, sep: string)
    requires InLang(AreaCode, w)
    ensures w == op + (digits + (cl + sep))
    ensures (op == [] || op == "(") && |digits| == 3 && AllIn(Digit, digits)
    ensures (cl == [] || cl == ")") && IsSeparator(sep)
  {
    var open, close, sepR := Opt(One(Literal('('))), Opt(One(Literal(')'))), Opt(One(SpaceDotDash));
    var d3 := Repeat(One(Digit), 3);
    var a1, a2;
    op, a1 := CatSplit(open, Cat(d3, Cat(close, sepR)), w);
    digits, a2 := CatSplit(d3, Cat(close, sepR), a1);
    cl, sep := CatSplit(close, sepR, a2);
    OptOneIff(Literal('('), op);
    OptOneIff(Literal(')'), cl);
    OptOneIff(SpaceDotDash, sep);
    RepeatOneIff(Digit, 3, digits);
  }

  lemma AreaCodeJoin(op: string, digits: string, cl: string, sep: string)
    requires (op == [] || op == "(") && |digits| == 3 && AllIn(Digit, digits)
    requires (cl == [] || cl == ")") && IsSeparator(sep)
    ensures InLang(AreaCode, op + (digits + (cl + sep)))
  {
    var open, close, sepR := Opt(One(Literal('('))), Opt(One(Literal(')'))), Opt(One(SpaceDotDash));
    var d3 := Repeat(One(Digit), 3);
    OptOneIff(Literal('('), op);
    OptOneIff(Literal(')'), cl);
    OptOneIff(SpaceDotDash, sep);
    RepeatOneIff(Digit, 3, digits);
    Cat4Intro(open, d3, close, sepR, op, digits, cl, sep);
  }

  lemma SubscriberSplit(w: string) returns (exchange: string, sep: string, line: string)
    requires InLang(Subscriber, w)
    ensures w == exchange + (sep + line)
    ensures |exchange| == 3 && AllIn(Digit, exchange) && IsSeparator(sep)
    ensures |line| == 4 && AllIn(Digit, line)
  {
    var sepR, d3, d4 := Opt(One(SpaceDotDash)), Repeat(One(Digit), 3), Repeat(One(Digit), 4);
    var r;
    exchange, r := CatSplit(d3, Cat(sepR, d4), w);
    sep, line := CatSplit(sepR, d4, r);
    OptOneIff(SpaceDotDash, sep);
    RepeatOneIff(Digit, 3, exchange);
    RepeatOneIff(Digit, 4, line);
  }

  lemma SubscriberJoin(exchange: string, sep: string, line: string)
    requires |exchange| == 3 && AllIn(Digit, exchange) && IsSeparator(sep)
    requires |line| == 4 && AllIn(Digit, line)
    ensures InLang(Subscriber, exchange + (sep + line))
  {
    var sepR, d3, d4 := Opt(One(SpaceDotDash)), Repeat(One(Digit), 3), Repeat(One(Digit), 4);
    OptOneIff(SpaceDotDash, sep);
    RepeatOneIff(Digit, 3, exchange);
    RepeatOneIff(Digit, 4, line);
    Cat3Intro(d3, sepR, d4, exchange, sep, line);
  }

  /** Every string the pattern accepts is assembled from well-formed parts. */
  lemma PatternSound(s: string)
    requires InLang(PhonePattern, s)
    ensures IsPhoneNumber(s)
  {
    assert PhonePattern == Cat(CountryCode, Cat(AreaCode, Subscriber));
    var country, r1 := CatSplit(CountryCode, Cat(AreaCode, Subscriber), s);
    var area, r2 := CatSplit(AreaCode, Subscriber, r1);
    CountryCodeIff(country);
    var op, digits, cl, sep1 := AreaCodeSplit(area);
    var exchange, sep2, line := SubscriberSplit(r2);
    var p := PhoneParts(country, op, digits, cl, sep1, exchange, sep2, line);
    assert WellFormed(p);
    assert Text(p) == s;
  }

  /** Every string assembled from well-formed parts is accepted by the pattern. */
  lemma PatternComplete(p: PhoneParts)
    requires WellFormed(p)
    ensures InLang(PhonePattern, Text(p))
  {
    assert PhonePattern == Cat(CountryCode, Cat(AreaCode, Subscriber));
    CountryCodeIff(p.country);
    var area := p.open + (p.area + (p.close + p.sep1));
    var rest := p.exchange + (p.sep2 + p.line);
    AreaCodeJoin(p.open, p.area, p.close, p.sep1);
    SubscriberJoin(p.exchange, p.sep2, p.line);
    Cat3Intro(CountryCode, AreaCode, Subscriber, p.country, area, rest);
  }

  /** The language of the pattern is exactly the strings assembled from well-formed parts. */
  lemma PatternLanguage(s: string)
    ensures InLang(PhonePattern, s) <==> IsPhoneNumber(s)
  {
    if InLang(PhonePattern, s) {
      PatternSound(s);
    }
    if IsPhoneNumber(s) {
      var p :| WellFormed(p) && Text(p) == s;
      PatternComplete(p);
    }
  }

  /** The pattern accepts exactly the strings assembled from well-formed parts. */
  lemma PhonePatternExact(s: string)
    ensures WholeMatch(PhonePattern, s) <==> IsPhoneNumber(s)
  {
    PatternLanguage(s);
  }

  /** Every string assembled from well-formed parts is accepted. */
  lemma PartsAccepted(p: PhoneParts)
    requires WellFormed(p)
    ensures WholeMatch(PhonePattern, Text(p))
  {
    PhonePatternExact(Text(p));
  }

  /** Everything before the last group of digits. */
  function Front(p: PhoneParts): string {
    p.country + ((p.open + (p.area + (p.close + p.sep1))) + (p.exchange + p.sep2))
  }

  lemma TextEndsWithLine(p: PhoneParts)
    ensures Text(p) == Front(p) + p.line
  {
    var area := p.open + (p.area + (p.close + p.sep1));
    assert p.exchange + (p.sep2 + p.line) == (p.exchange + p.sep2) + p.line;
    assert area + ((p.exchange + p.sep2) + p.line) == (area + (p.exchange + p.sep2)) + p.line;
  }

  /** Well-formed parts join into 10 to 17 characters, the last four of them digits. */
  lemma PartsShape(p: PhoneParts)
    requires WellFormed(p)
    ensures 10 <= |Text(p)| <= 17
    ensures forall k | |Text(p)| - 4 <= k < |Text(p)| :: IsDigit(Text(p)[k])
  {
    TextEndsWithLine(p);
    var s, n := Text(p), |Front(p)|;
    assert |p.country| <= 3 && |p.open| <= 1 && |p.close| <= 1 && |p.sep1| <= 1 && |p.sep2| <= 1;
    assert 6 <= n <= 13;
    forall k | |s| - 4 <= k < |s| ensures IsDigit(s[k]) {
      assert s[k] == p.line[k - n];
    }
  }

  /** Accepted numbers are 10 to 17 characters long and end with four ASCII digits. */
  lemma AcceptedShape(s: string)
    requires WholeMatch(PhonePattern, s)
    ensures 10 <= |s| <= 17
    ensures forall k | |s| - 4 <= k < |s| :: IsDigit(s[k])
  {
    PhonePatternExact(s);
    var p :| WellFormed(p) && Text(p) == s;
    PartsShape(p);
  }

  /**
   * Ten ASCII digits are accepted, bare, after `+1`, or after `+1` and
   * one whitespace character.
   */
  lemma TenDigitsAccepted(prefix: string, d: string)
    requires |d| == 10 && AllIn(Digit, d)
    requires IsCountryCode(prefix)
    ensures WholeMatch(PhonePattern, prefix + d)
  {
    var area, exchange, line := d[..3], d[3..6], d[6..];
    AllInSlice(Digit, d, 0, 3);
    AllInSlice(Digit, d, 3, 6);
    AllInSlice(Digit, d, 6, 10);
    var p := PhoneParts(prefix, [], area, [], [], exchange, [], line);
    assert WellFormed(p);
    assert [] + (area + ([] + [])) == area;
    assert exchange + ([] + line) == exchange + line;
    assert area + (exchange + line) == d;
    assert Text(p) == prefix + d;
    PartsAccepted(p);
  }

  /** The parentheses are independent: an opening one without a closing one is accepted. */
  lemma UnbalancedParenAccepted()
    ensures WholeMatch(PhonePattern, "(5551234567")
  {
    var p := PhoneParts([], "(", "555", [], [], "123", [], "4567");
    assert Text(p) == "(5551234567";
    PartsAccepted(p);
  }

  /** Dashes after the area code and after the exchange. */
  lemma DashedAccepted()
    ensures WholeMatch(PhonePattern, "555-123-4567")
  {
    var p := PhoneParts([], [], "555", [], "-", "123", "-", "4567");
    assert Text(p) == "555-123-4567";
    PartsAccepted(p);
  }

  /** Parentheses, a space and a dot, behind a `+1 ` country code. */
  lemma FullFormAccepted()
    ensures WholeMatch(PhonePattern, "+1 (555) 123.4567")
  {
    var p := PhoneParts("+1 ", "(", "555", ")", " ", "123", ".", "4567");
    assert Text(p) == "+1 (555) 123.4567";
    PartsAccepted(p);
  }

  /** Strings shorter than 10 or longer than 17 characters are rejected. */
  lemma WrongLengthRejected(s: string)
    requires |s| < 10 || |s| > 17
    ensures !WholeMatch(PhonePattern, s)
  {
    if WholeMatch(PhonePattern, s) {
      AcceptedShape(s);
    }
  }

  /** A string whose last character is not an ASCII digit is rejected. */
  lemma NonDigitEndingRejected(s: string)
    requires s != [] && !IsDigit(s[|s| - 1])
    ensures !WholeMatch(PhonePattern, s)
  {
    if WholeMatch(PhonePattern, s) {
      AcceptedShape(s);
    }
  }
}
