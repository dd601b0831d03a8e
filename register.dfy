/**
 * `registerSchema`, the validation schema of the registration form: one
 * string schema per field, and the form is valid when every field is.
 * Each field's schema is proved equal to a direct statement of its rule.
 */
module Register {
  import opened RegExp
  import opened Yup
  import opened Phone

  /** The values of the registration form. */
  datatype RegisterValues = RegisterValues(
    name: string, email: string, password: string,
    confirmedPassword: string, phone: string, department: string)

  const NameSchema: StringSchema := [Required]

  const EmailSchema: StringSchema := [Email, Required]

  const PasswordSchema: StringSchema :=
    [Required, Min(8), Matches(One(Upper)), Matches(One(Lower)), Matches(One(Digit)), Matches(One(NotAlnum))]

  /** `oneOf([Yup.ref("password")])` resolves the reference to the password field's value. */
  function ConfirmedPasswordSchema(password: string): StringSchema {
    [OneOf([password]), Required]
  }

  const PhoneSchema: StringSchema := [Required, MatchesWhole(PhonePattern)]

  const DepartmentSchema: StringSchema := [Required]

  /** The whole form passes `registerSchema`. */
  predicate RegisterValid(v: RegisterValues, isEmail: string -> bool) {
    && Valid(NameSchema, v.name, isEmail)
    && Valid(EmailSchema, v.email, isEmail)
    && Valid(PasswordSchema, v.password, isEmail)
    && Valid(ConfirmedPasswordSchema(v.password), v.confirmedPassword, isEmail)
    && Valid(PhoneSchema, v.phone, isEmail)
    && Valid(DepartmentSchema, v.department, isEmail)
  }

  /** The password rule stated directly: its length and the four kinds of character it must contain. */
  predicate PasswordPolicy(p: string) {
    && |p| >= 8
    && (exists k | 0 <= k < |p| :: IsUpper(p[k]))
    && (exists k | 0 <= k < |p| :: IsLower(p[k]))
    && (exists k | 0 <= k < |p| :: IsDigit(p[k]))
    && (exists k | 0 <= k < |p| :: !IsAlnum(p[k]))
  }

  /** The name field accepts exactly the non-empty strings. */
  lemma NameIffNonEmpty(v: string, isEmail: string -> bool)
    ensures Valid(NameSchema, v, isEmail) <==> v != []
  {
    assert Passes(NameSchema[0], v, isEmail) <==> v != [];
  }

  /** The department field accepts exactly the non-empty strings. */
  lemma DepartmentIffNonEmpty(v: string, isEmail: string -> bool)
    ensures Valid(DepartmentSchema, v, isEmail) <==> v != []
  {
    assert Passes(DepartmentSchema[0], v, isEmail) <==> v != [];
  }

  /** The email field accepts the non-empty strings that have an email format. */
  lemma EmailIff(v: string, isEmail: string -> bool)
    ensures Valid(EmailSchema, v, isEmail) <==> v != [] && isEmail(v)
  {
    assert Passes(EmailSchema[0], v, isEmail) <==> isEmail(v);
    assert Passes(EmailSchema[1], v, isEmail) <==> v != [];
  }

  /** The password schema accepts exactly the passwords that meet the policy. */
  lemma PasswordSchemaIffPolicy(p: string, isEmail: string -> bool)
    ensures Valid(PasswordSchema, p, isEmail) <==> PasswordPolicy(p)
  {
    SearchOneIffSome(Upper, p);
    SearchOneIffSome(Lower, p);
    SearchOneIffSome(Digit, p);
    SearchOneIffSome(NotAlnum, p);
    if Valid(PasswordSchema, p, isEmail) {
      assert Passes(PasswordSchema[1], p, isEmail);
      assert Passes(PasswordSchema[2], p, isEmail);
      assert Passes(PasswordSchema[3], p, isEmail);
      assert Passes(PasswordSchema[4], p, isEmail);
      assert Passes(PasswordSchema[5], p, isEmail);
    }
  }

  /** A password of ASCII letters and digits alone is rejected, however long. */
  lemma AlnumOnlyRejected(p: string, isEmail: string -> bool)
    requires forall k | 0 <= k < |p| :: IsAlnum(p[k])
    ensures !Valid(PasswordSchema, p, isEmail)
  {
    PasswordSchemaIffPolicy(p, isEmail);
  }

  /** A password shorter than eight characters is rejected. */
  lemma ShortPasswordRejected(p: string, isEmail: string -> bool)
    requires |p| < 8
    ensures !Valid(PasswordSchema, p, isEmail)
  {
    PasswordSchemaIffPolicy(p, isEmail);
  }

  /** A password lacking an uppercase letter, a lowercase letter, a digit or a special character is rejected. */
  lemma MissingKindRejected(p: string, isEmail: string -> bool)
    requires || (forall k | 0 <= k < |p| :: !IsUpper(p[k]))
             || (forall k | 0 <= k < |p| :: !IsLower(p[k]))
             || (forall k | 0 <= k < |p| :: !IsDigit(p[k]))
             || (forall k | 0 <= k < |p| :: IsAlnum(p[k]))
    ensures !Valid(PasswordSchema, p, isEmail)
  {
    PasswordSchemaIffPolicy(p, isEmail);
  }

  /** The confirmation is valid exactly when it is non-empty and equal to the password. */
  lemma ConfirmedIff(password: string, c: string, isEmail: string -> bool)
    ensures Valid(ConfirmedPasswordSchema(password), c, isEmail) <==> c != [] && c == password
  {
    var schema := ConfirmedPasswordSchema(password);
    assert Passes(schema[0], c, isEmail) <==> c == password;
    assert Passes(schema[1], c, isEmail) <==> c != [];
  }

  /** The phone schema accepts exactly the strings assembled from well-formed phone parts. */
  lemma PhoneSchemaIff(s: string, isEmail: string -> bool)
    ensures Valid(PhoneSchema, s, isEmail) <==> IsPhoneNumber(s)
  {
    RequiredWholeIff(PhonePattern, s, isEmail);
    PhonePatternExact(s);
    if IsPhoneNumber(s) {
      var p :| WellFormed(p) && Text(p) == s;
      PartsShape(p);
    }
  }

  /** The form is valid exactly when every field meets its rule. */
  lemma RegisterValidIff(v: RegisterValues, isEmail: string -> bool)
    ensures RegisterValid(v, isEmail) <==>
      && v.name != []
      && v.email != [] && isEmail(v.email)
      && PasswordPolicy(v.password)
      && v.confirmedPassword == v.password
      && IsPhoneNumber(v.phone)
      && v.department != []
  {
    NameIffNonEmpty(v.name, isEmail);
    DepartmentIffNonEmpty(v.department, isEmail);
    EmailIff(v.email, isEmail);
    PasswordSchemaIffPolicy(v.password, isEmail);
    ConfirmedIff(v.password, v.confirmedPassword, isEmail);
    PhoneSchemaIff(v.phone, isEmail);
  }
}
