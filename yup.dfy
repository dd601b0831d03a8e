/**
 * The part of a `Yup.string()` schema that the forms use: a chain of tests,
 * every one of which a value must pass. The format rules behind `.email()`
 * belong to the library and are not modelled; they reach the model as the
 * predicate `isEmail`.
 */
module Yup {
  import opened RegExp

  /** One link of a `Yup.string()` chain. */
  datatype Test =
    | Required                      // `.required(msg)`: the empty string is rejected
    | Min(n: nat)                   // `.min(n, msg)`: at least `n` characters
    | Matches(r: Regex)             // `.matches(/r/, msg)`: `r` occurs somewhere in the value
    | MatchesWhole(r: Regex)        // `.matches(/^r$/, msg)`: `r` spans the whole value
    | Email                         // `.email(msg)`
    | OneOf(allowed: seq<string>)   // `.oneOf([...], msg)`, references already resolved

  type StringSchema = seq<Test>

  /** Whether `v` passes one test; the two regular-expression tests are stated by the pattern's language. */
  predicate Passes(t: Test, v: string, isEmail: string -> bool)
    ensures t.MatchesWhole? ==> (Passes(t, v, isEmail) <==> InLang(t.r, v))
    ensures t.Matches? ==> (Passes(t, v, isEmail) <==> exists i, j | 0 <= i <= j <= |v| :: InLang(t.r, v[i..j]))
  {
    match t
    case Required => v != []
    case Min(n) => |v| >= n
    case Matches(r) => Search(r, v)
    case MatchesWhole(r) => WholeMatch(r, v)
    case Email => isEmail(v)
    case OneOf(allowed) => v in allowed
  }

  /** A value is valid when it passes every test of the chain, whatever their order. */
  predicate Valid(schema: StringSchema, v: string, isEmail: string -> bool)
    ensures Valid(schema, v, isEmail) <==> forall t | t in schema :: Passes(t, v, isEmail)
  {
    forall i | 0 <= i < |schema| :: Passes(schema[i], v, isEmail)
  }

  /** Chaining more tests is conjunction. */
  lemma ValidAppend(a: StringSchema, b: StringSchema, v: string, isEmail: string -> bool)
    ensures Valid(a + b, v, isEmail) <==> Valid(a, v, isEmail) && Valid(b, v, isEmail)
  {
    if Valid(a, v, isEmail) && Valid(b, v, isEmail) {
      forall i | 0 <= i < |a + b| ensures Passes((a + b)[i], v, isEmail) {
        if i >= |a| { assert (a + b)[i] == b[i - |a|]; }
      }
    }
    if Valid(a + b, v, isEmail) {
      forall i | 0 <= i < |a| ensures Passes(a[i], v, isEmail) {
        assert (a + b)[i] == a[i];
      }
      forall i | 0 <= i < |b| ensures Passes(b[i], v, isEmail) {
        assert (a + b)[|a| + i] == b[i];
      }
    }
  }

  /** Repeating a test that is already in the chain changes nothing. */
  lemma RepeatedTestNoEffect(schema: StringSchema, t: Test, v: string, isEmail: string -> bool)
    requires t in schema
    ensures Valid(schema + [t], v, isEmail) <==> Valid(schema, v, isEmail)
  {
    ValidAppend(schema, [t], v, isEmail);
  }

  /** A required value that must match an anchored pattern: non-empty and matched in full. */
  lemma RequiredWholeIff(r: Regex, v: string, isEmail: string -> bool)
    ensures Valid([Required, MatchesWhole(r)], v, isEmail) <==> v != [] && WholeMatch(r, v)
  {
    var schema := [Required, MatchesWhole(r)];
    assert Passes(schema[0], v, isEmail) <==> v != [];
    assert Passes(schema[1], v, isEmail) <==> WholeMatch(r, v);
  }
}
