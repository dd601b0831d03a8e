# Employee login app: session holder, home gate and form rules

This project models the parts of the Expo employee-login app that have logic
of their own:

- **The session holder** `AuthContextProvider` (`utils/authContext.tsx`). It
  keeps the user's token (`null` until known) and a `loading` flag, and
  mirrors the token in AsyncStorage under the single key `"userToken"`. Its
  operations are `loadToken` (run once on mount), `login(token)` and
  `logout()`. In `session.dfy` it is the class
  `Session.AuthContextProvider`, with the fields `userToken`, `loading` and
  `store` (a `map<string, string>` standing in for AsyncStorage). Each of its
  methods is proved to produce the state given by a function on values:
  `AfterLoad`, `AfterLogin` or `AfterLogout`. Lemmas about those functions
  state what the operations promise: their effects, their error paths,
  idempotence, the round trip through a restart, that only `"userToken"` is
  ever touched, and that the in-memory and stored tokens stay in agreement.
  A storage call that rejects is modelled by a `fail` argument.
- **The home gate** `Index` (`app/index.tsx`). `HomeGate.IndexRoute` redirects
  to `/login` when the token is falsy (`null` or `""`) and otherwise shows the
  home page. It never looks at `loading`. The screens see the provider's
  state only when an `AuthContextProvider` is mounted above them, and the
  root layout `app/_layout.tsx` mounts none (see Findings); the lemmas
  relating the gate to the provider's operations assume one is mounted.
- **The form rules**: the Yup schemas of the registration form
  (`app/register.tsx`) and the login form (`app/login.tsx`). `Yup` models a
  `Yup.string()` chain as a sequence of tests that must all pass. `RegExp`
  models the regular expressions the chains use. Its recogniser `Ends` is
  proved equal to a declarative language `InLang`. `Phone` gives the phone
  pattern and proves that it accepts exactly the strings built from eight
  well-formed parts. `Register` and `Login` prove that each field's schema
  is equivalent to a direct statement of its rule. They also prove that the
  two password chains accept the same passwords.

The behaviour modelled is the code's. `loading` is evidently meant to end
once the initial read of the token has completed or failed; as written,
`loadToken` clears it only when it finds a truthy token, and `login` and
`logout` never touch it. The model follows the code, and a corrected load
stands beside it (see Findings).

## Model

| member | source | states |
|---|---|---|
| `RegExp.Ends` | app/register.tsx:28-30 | every position the matcher reaches lies between the start position and the end of the input |
| `RegExp.EndsIffInLang` | app/register.tsx:28-30 | the matcher reaches `j` from `i` exactly when `s[i..j]` is in the pattern's language |
| `RegExp.WholeMatch` | app/register.tsx:28-31 | an anchored `/^r$/` test (no flags) succeeds exactly when the whole value is in the pattern's language |
| `RegExp.Search` | app/register.tsx:19-22 | an unanchored `/r/` test (no flags) succeeds exactly when some slice of the value is in the pattern's language |
| `RegExp.EndsInLang` | app/register.tsx:28-30 | every position the matcher reaches from `i` ends a piece `s[i..j]` of the pattern's language |
| `RegExp.InLangEnds` | app/register.tsx:28-30 | every piece `s[i..j]` of the pattern's language is reached by the matcher from `i` |
| `RegExp.SearchOneIffSome` | app/register.tsx:19-22 | an unanchored one-class test such as `/[A-Z]/` succeeds exactly when some character of the string is in the class |
| `RegExp.RepeatOneSound` | app/register.tsx:29 | every string matched by `c{n}` has length `n` and only characters of class `c` |
| `RegExp.RepeatOneComplete` | app/register.tsx:29 | every string of length `n` made of characters of class `c` is matched by `c{n}` |
| `RegExp.RepeatOneIff` | app/register.tsx:29 | `c{n}` matches exactly the strings of length `n` made only of characters of class `c` |
| `RegExp.OptOneIff` | app/register.tsx:29 | `c?` matches exactly the empty string and the single characters of class `c` |
| `RegExp.CatIntro` | app/register.tsx:29 | a string of `a` followed by a string of `b` is matched by `ab` |
| `RegExp.CatSplit` | app/register.tsx:29 | every string matched by `ab` splits into a string of `a` followed by a string of `b` |
| `Phone.CountryCodeIff` | app/register.tsx:29 | `(\+1\s?)?` matches exactly `""`, `"+1"` and `"+1"` followed by one whitespace character |
| `Phone.CountryCodeSplit` | app/register.tsx:29 | every string `(\+1\s?)?` matches is `""`, `"+1"`, or `"+1"` and one whitespace character |
| `Phone.CountryCodeJoin` | app/register.tsx:29 | `""`, `"+1"` and `"+1"` followed by one whitespace character are all matched by `(\+1\s?)?` |
| `Phone.AreaCodeSplit` | app/register.tsx:29 | every string `(\(?\d{3}\)?[\s.-]?)` matches splits into an optional `(`, 3 digits, an optional `)` and an optional separator |
| `Phone.AreaCodeJoin` | app/register.tsx:29 | an optional `(`, 3 digits, an optional `)` and an optional separator, in order, are matched by the area-code group |
| `Phone.SubscriberSplit` | app/register.tsx:29 | every string `\d{3}[\s.-]?\d{4}` matches splits into 3 digits, an optional separator and 4 digits |
| `Phone.SubscriberJoin` | app/register.tsx:29 | 3 digits, an optional separator and 4 digits, in order, are matched by `\d{3}[\s.-]?\d{4}` |
| `Phone.PatternSound` | app/register.tsx:29 | every string in the phone pattern's language is built from well-formed parts |
| `Phone.PatternComplete` | app/register.tsx:29 | every string built from well-formed parts is in the phone pattern's language |
| `Phone.PatternLanguage` | app/register.tsx:29 | the language of `PhonePattern` (`(\+1\s?)?(\(?\d{3}\)?[\s.-]?)\d{3}[\s.-]?\d{4}`) is exactly the strings built from well-formed parts |
| `Phone.PartsShape` | app/register.tsx:29 | well-formed parts join into 10 to 17 characters whose last four are ASCII digits |
| `Phone.PhonePatternExact` | app/register.tsx:29 | the phone pattern accepts exactly the strings built from: country code, optional `(`, 3 digits, optional `)`, optional separator, 3 digits, optional separator, 4 digits |
| `Phone.AcceptedShape` | app/register.tsx:29 | every accepted phone number has 10 to 17 characters and ends with four ASCII digits |
| `Phone.WrongLengthRejected` | app/register.tsx:29 | strings shorter than 10 or longer than 17 characters are rejected |
| `Phone.NonDigitEndingRejected` | app/register.tsx:29 | a string whose last character is not an ASCII digit is rejected |
| `Phone.TenDigitsAccepted` | app/register.tsx:29 | ten ASCII digits are accepted bare, after `+1`, and after `+1` and one whitespace character |
| `Phone.UnbalancedParenAccepted` | app/register.tsx:29 | the parentheses are independent, so `"(5551234567"` is accepted |
| `Phone.DashedAccepted` | app/register.tsx:29 | `"555-123-4567"` is accepted |
| `Phone.FullFormAccepted` | app/register.tsx:29 | `"+1 (555) 123.4567"` is accepted |
| `Yup.Passes` | app/register.tsx:14-32 | one link of a `Yup.string()` chain; `.matches` with an anchored pattern passes exactly the values in its language, and without anchors exactly the values with a slice in its language |
| `Yup.Valid` | app/register.tsx:14-32 | a value passes a chain exactly when it passes every test in it, whatever their order |
| `Yup.ValidAppend` | app/register.tsx:16-22 | chaining tests is conjunction: a value passes `a + b` exactly when it passes `a` and passes `b` |
| `Yup.RequiredWholeIff` | app/register.tsx:26-31 | `.required().matches(re)` with an anchored pattern passes exactly the non-empty strings the pattern matches whole |
| `Yup.RepeatedTestNoEffect` | app/login.tsx:17-24 | repeating a test that is already in a chain does not change which values pass |
| `Register.NameIffNonEmpty` | app/register.tsx:14 | the name chain `NameSchema` (`.required`) accepts exactly the non-empty names |
| `Register.EmailIff` | app/register.tsx:15 | the email chain `EmailSchema` (`.email`, `.required`) accepts exactly the non-empty values of email format |
| `Register.PasswordSchemaIffPolicy` | app/register.tsx:16-22 | the password chain `PasswordSchema` (`.required`, `.min(8)`, four searches) accepts exactly the passwords with at least 8 characters, an uppercase letter, a lowercase letter, a digit and a character outside `[a-zA-Z0-9]` |
| `Register.ShortPasswordRejected` | app/register.tsx:18 | a password shorter than 8 characters is rejected |
| `Register.MissingKindRejected` | app/register.tsx:19-22 | a password lacking an uppercase letter, a lowercase letter, a digit or a special character is rejected |
| `Register.AlnumOnlyRejected` | app/register.tsx:22 | a password made only of ASCII letters and digits is rejected, whatever its length |
| `Register.ConfirmedIff` | app/register.tsx:23-25 | the confirmation chain `ConfirmedPasswordSchema` (`.oneOf` the password, `.required`) accepts exactly a non-empty copy of the password |
| `Register.PhoneSchemaIff` | app/register.tsx:26-31 | the phone chain `PhoneSchema` (`.required`, the anchored phone pattern) accepts exactly the strings built from well-formed phone parts |
| `Register.DepartmentIffNonEmpty` | app/register.tsx:32 | the department chain `DepartmentSchema` (`.required`) accepts exactly the non-empty values |
| `Register.RegisterValidIff` | app/register.tsx:13-33 | `RegisterValid`, every field passing its chain of `registerSchema`, holds exactly when every field meets its rule as stated directly |
| `Login.RepeatedRequiredNoEffect` | app/login.tsx:17-24 | the login password chain `PasswordSchema` (the registration chain then a second `.required`) accepts what it accepts without the second `.required` |
| `Login.PasswordRulesAgree` | app/login.tsx:17-24 | the login and registration password chains accept the same passwords, exactly those meeting the policy |
| `Login.LoginValidIff` | app/login.tsx:15-25 | `LoginValid`, both fields passing their chains of `logInSchema`, holds exactly when the email is non-empty and well formed and the password meets the policy |
| `Login.EmptyEmailRejected` | app/login.tsx:16 | an empty email is rejected whatever the format predicate says |
| `Session.AuthContextProvider.constructor` | utils/authContext.tsx:19-20 | a new provider has no token, is loading, and leaves the store as it was |
| `Session.AuthContextProvider.SetItem` | utils/authContext.tsx:38 | a successful write stores the value under the key; a rejected one changes nothing and reports the error |
| `Session.AuthContextProvider.RemoveItem` | utils/authContext.tsx:43 | a successful removal deletes the key; a rejected one changes nothing and reports the error |
| `Session.AuthContextProvider.LoadToken` | utils/authContext.tsx:23-33 | the new state is `AfterLoad` of the old one |
| `Session.AuthContextProvider.LoadTokenFixed` | utils/authContext.tsx:23-33 | corrected load: the new state is `AfterLoadFixed` of the old one, and loading has ended |
| `Session.AuthContextProvider.Login` | utils/authContext.tsx:37-40 | the call succeeds exactly when the write does, and the new state is `AfterLogin` of the old one |
| `Session.AuthContextProvider.Logout` | utils/authContext.tsx:42-45 | the call succeeds exactly when the removal does, and the new state is `AfterLogout` of the old one |
| `Session.AfterLoad` | utils/authContext.tsx:23-33 | `loadToken` as written never writes the store and never sets `loading` back to true; it ends the loading only by adopting a truthy stored token after a successful read |
| `Session.AfterLoadFixed` | utils/authContext.tsx:23-33 | the corrected load always ends the loading, never writes the store, and either keeps the token or adopts the truthy stored one |
| `Session.AfterLogin` | utils/authContext.tsx:37-40 | a successful login stores and adopts the token; `loading` is untouched; no other key changes; a failed write changes nothing |
| `Session.AfterLogout` | utils/authContext.tsx:42-45 | a successful logout removes the key and drops the token; `loading` is untouched; no other key changes; a failed removal changes nothing |
| `Session.LoadFindsToken` | utils/authContext.tsx:25-29 | a non-empty stored token is adopted and ends the loading, with the store unchanged |
| `Session.LoadWithoutTokenChangesNothing` | utils/authContext.tsx:24-32 | with no stored token, an empty one, or a failed read, the load leaves the whole state unchanged |
| `Session.LoginLogoutIdempotent` | utils/authContext.tsx:37-45 | logging in twice with one token, or logging out twice, gives the state that one call gives |
| `Session.LoginSurvivesRestart` | utils/authContext.tsx:19-40 | after a login with a non-empty token, a freshly mounted provider's load gives that token with loading ended |
| `Session.LogoutSurvivesRestart` | utils/authContext.tsx:19-45 | after a logout, a freshly mounted provider's load finds no token and stays loading |
| `Session.ApplyKeepsSynced` | utils/authContext.tsx:23-45 | every operation keeps the in-memory token equal to the stored one once they agree |
| `Session.RunKeepsSynced` | utils/authContext.tsx:23-45 | once the in-memory and stored tokens agree, they agree after any sequence of operations |
| `Session.RunTouchesOnlyTokenKey` | utils/authContext.tsx:25-43 | no sequence of operations changes any key other than `"userToken"` |
| `Session.RunLoadingNeverResumes` | utils/authContext.tsx:20-45 | once loading has ended, no sequence of operations starts it again |
| `Session.AccountCallsKeepLoading` | utils/authContext.tsx:37-45 | logins and logouts alone never end the loading |
| `Session.LoadingStuckWithoutToken` | utils/authContext.tsx:26-29 | a provider mounted over a store without a truthy token, or whose read fails, is still loading after its load |
| `Session.FixedLoadSettles` | utils/authContext.tsx:23-33 | the corrected load always ends the loading, adopts the same token as the original, and never writes the store |
| `HomeGate.IndexRoute` | app/index.tsx:7-17 | the route depends on the token alone, and it redirects to `/login` exactly when the token is `null` or `""` |
| `HomeGate.RouteByToken` | app/index.tsx:9-17 | `null` and `""` redirect to `/login`, and every non-empty token shows the home page |
| `HomeGate.RedirectsBeforeLoad` | app/index.tsx:9-11 | with a provider mounted above the screens, a freshly mounted provider redirects to `/login` even when a token is persisted; the home page shows once that token is loaded |
| `HomeGate.RouteAfterAccountCalls` | app/index.tsx:9-17 | with a provider mounted above the screens, after a successful logout the gate redirects; after a successful login with a non-empty token it shows home |
| `HomeGate.RestartKeepsRoute` | app/index.tsx:9-17 | with a provider mounted above the screens, when the in-memory and stored tokens agree, a restart followed by a successful load gives the same route |
| `HomeGate.ScreenState` | utils/authContext.tsx:11-16 | with no provider above the screens, they read the default value: token `null` and loading, whatever calls are made through `login` and `logout` |
| `HomeGate.NoProviderAlwaysRedirects` | app/_layout.tsx:3-12 | with the layout as written, which mounts no provider, the home screen redirects to `/login` after any sequence of calls |
| `HomeGate.ProviderLoginShowsHome` | app/login.tsx:45-48 | with a provider mounted, a successful login with a non-empty token makes the home screen show the home page |

## Left out

- Network calls and their handling in the two forms' submit handlers (`fetch`, `res.json()`, `Alert`). The server is external.
- Navigation (`router.replace`, `router.push`, `Redirect` rendering), Formik wiring, the JSX, the `StyleSheet` objects and the screen options in `app/_layout.tsx`. These are UI or static configuration. This includes the department error line that is shown under the password's condition.
- React plumbing: `useState`, `useEffect`, the context object and re-rendering of consumers. State updates are field assignments. Of the component tree only whether a provider is mounted above the screens is modelled (`HomeGate.ScreenState`).
- `HomeGate.RedirectsBeforeLoad`, `HomeGate.RouteAfterAccountCalls`, `HomeGate.RestartKeepsRoute`: they assume an `AuthContextProvider` mounted above the screens, which `app/_layout.tsx` does not mount; for the app as written, see `HomeGate.NoProviderAlwaysRedirects`.
- Asynchrony: each operation is one atomic step. Interleavings such as a load finishing after a login are not modelled.
- The `console.error` logging of a failed load.
- AsyncStorage internals. A rejected write or removal is assumed to leave the store unchanged.
- Yup's email format rules: library code, passed to the form predicates as the uninterpreted `isEmail`.
- Yup's error messages and error collection: only whether a value passes is modelled.
- Formik turns `""` into `undefined` before validating. The model validates the strings themselves; `Required` rejects `""` either way, so validity is the same.
- String length: `.min(8)` counts UTF-16 code units in JavaScript, while the model counts characters (Unicode scalar values). The two differ only for characters outside the Basic Multilingual Plane.
- Regular expressions: only the constructs the schemas use are modelled (character classes, concatenation, `?`, `{n}`, the `^…$` anchors), with no flags.

## Findings

| source | as written | input that shows it | evidently intended | confidence | as-written member | corrected member |
|---|---|---|---|---|---|---|
| utils/authContext.tsx:26-29 | `loading` is cleared only inside `if (token)`, so a load that finds no token, finds `""`, or fails leaves `loading` true for the life of the provider | a store without `"userToken"` (for example an empty store) or a rejected `getItem` | `loading` ends once the initial read has completed or failed | medium; not executed | `Session.LoadingStuckWithoutToken` | `Session.FixedLoadSettles` |
| app/_layout.tsx:3-12 | the root layout renders a bare `<Stack>` with no `AuthContextProvider`, so `Index` and `LogIn` read the context's default value: the token is always `null` and `login` does nothing | any successful login submitted from the login screen, followed by the redirect to `/` | the layout wraps the screens in `AuthContextProvider`, so a login reaches the home page | plausible; not executed | `HomeGate.NoProviderAlwaysRedirects` | `HomeGate.ProviderLoginShowsHome` |

The corrected load is `Session.AfterLoadFixed`, with the method
`Session.AuthContextProvider.LoadTokenFixed`. It adopts exactly the token the
original adopts. The home gate reads only the token, so it takes the same
decisions under either load.
