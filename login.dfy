/**
 * `logInSchema`, the validation schema of the login form. Its password
 * chain is the registration chain with `.required` repeated at the end.
 */
module Login {
  import opened RegExp
  import opened Yup
  import Register

  /** The values of the login form. */
  datatype LoginValues = LoginValues(email: string, password: string)

  const EmailSchema: StringSchema := [Email, Required]

  const PasswordSchema: StringSchema :=
    [Required, Min(8), Matches(One(Upper)), Matches(One(Lower)), Matches(One(Digit)), Matches(One(NotAlnum)), Required]

  /** The whole form passes `logInSchema`. */
  predicate LoginValid(v: LoginValues, isEmail: string -> bool) {
    && Valid(EmailSchema, v.email, isEmail)
    && Valid(PasswordSchema, v.password, isEmail)
  }

  /** The trailing `.required` adds nothing to the chain before it. */
  lemma RepeatedRequiredNoEffect(p: string, isEmail: string -> bool)
    ensures Valid(PasswordSchema, p, isEmail) <==> Valid(PasswordSchema[..6], p, isEmail)
  {
    assert PasswordSchema == PasswordSchema[..6] + [Required];
    assert PasswordSchema[..6][0] == Required;
    RepeatedTestNoEffect(PasswordSchema[..6], Required, p, isEmail);
  }

  /** The login and registration password rules accept the same passwords. */
  lemma PasswordRulesAgree(p: string, isEmail: string -> bool)
    ensures Valid(PasswordSchema, p, isEmail) <==> Valid(Register.PasswordSchema, p, isEmail)
    ensures Valid(PasswordSchema, p, isEmail) <==> Register.PasswordPolicy(p)
  {
    RepeatedRequiredNoEffect(p, isEmail);
    assert PasswordSchema[..6] == Register.PasswordSchema;
    Register.PasswordSchemaIffPolicy(p, isEmail);
  }

  /** The form is valid exactly when the email is non-empty and well formed and the password meets the policy. */
  lemma LoginValidIff(v: LoginValues, isEmail: string -> bool)
    ensures LoginValid(v, isEmail) <==>
      v.email != [] && isEmail(v.email) && Register.PasswordPolicy(v.password)
  {
    assert EmailSchema == Register.EmailSchema;
    Register.EmailIff(v.email, isEmail);
    PasswordRulesAgree(v.password, isEmail);
  }

  /** An empty email is rejected whatever the format predicate says. */
  lemma EmptyEmailRejected(p: string, isEmail: string -> bool)
    ensures !LoginValid(LoginValues([], p), isEmail)
  {
    assert !Passes(EmailSchema[1], [], isEmail);
  }
}
