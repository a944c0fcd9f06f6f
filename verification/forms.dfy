/**
 The three form classes, as pure validators over candidate field values. The
 uniqueness validators read the current table, which is passed explicitly.

 Each field runs its validators in declaration order, followed by its inline
 `validate_<field>` method. `DataRequired` halts the chain when it fails; the
 other validators record their error and let the chain go on. A field is
 accepted when its error list is empty. The routes never call these forms.
 */
module Forms {
  import opened Models

  datatype FieldError =
    | Required        // DataRequired
    | WrongLength     // Length(min, max)
    | NotEqual        // EqualTo
    | AlreadyExists   // validate_username / validate_name

  /** Python's `str.isspace`: the characters `str.strip()` removes. */
  predicate IsSpace(c: char)
  {
    var n := c as int;
    || (0x09 <= n <= 0x0D)
    || (0x1C <= n <= 0x20)
    || n == 0x85 || n == 0xA0 || n == 0x1680
    || (0x2000 <= n <= 0x200A)
    || n == 0x2028 || n == 0x2029 || n == 0x202F || n == 0x205F || n == 0x3000
  }

  /** A string with at least one non-space character. */
  predicate HasContent(s: string)
  {
    exists i :: 0 <= i < |s| && !IsSpace(s[i])
  }

  /** WTForms' `Length(min, max)`, where -1 leaves a side unbounded. */
  predicate LengthWithin(s: string, min: int, max: int)
  {
    !(|s| < min || (max != -1 && |s| > max))
  }

  function LengthErrors(s: string, min: int, max: int): seq<FieldError>
  {
    if LengthWithin(s, min, max) then [] else [WrongLength]
  }

  // RegistrationForm

  const UsernameMin: int := 3
  const UsernameMax: int := 150
  const PasswordMin: int := 6

  datatype Registration = Registration(username: string, password: string, confirmPassword: string)

  function UsernameErrors(users: seq<User>, username: string): (errs: seq<FieldError>)
  {
    if !HasContent(username) then [Required]
    else
      LengthErrors(username, UsernameMin, UsernameMax)
      + (if UserByName(users, username).Some? then [AlreadyExists] else [])
  }

  function PasswordErrors(password: string): (errs: seq<FieldError>)
  {
    if !HasContent(password) then [Required]
    else LengthErrors(password, PasswordMin, -1)
  }

  function ConfirmErrors(password: string, confirmPassword: string): (errs: seq<FieldError>)
  {
    if !HasContent(confirmPassword) then [Required]
    else if confirmPassword == password then []
    else [NotEqual]
  }

  predicate RegistrationValid(users: seq<User>, f: Registration)
  {
    && UsernameErrors(users, f.username) == []
    && PasswordErrors(f.password) == []
    && ConfirmErrors(f.password, f.confirmPassword) == []
  }

  // LoginForm

  datatype LoginFields = LoginFields(username: string, password: string)

  predicate LoginValid(f: LoginFields)
  {
    HasContent(f.username) && HasContent(f.password)
  }

  // AssetForm

  const AssetNameMax: int := 200
  const DescriptionMax: int := 500

  datatype AssetFields = AssetFields(name: string, description: string)

  function NameErrors(assets: seq<Asset>, name: string): (errs: seq<FieldError>)
  {
    if !HasContent(name) then [Required]
    else
      LengthErrors(name, -1, AssetNameMax)
      + (if AssetByName(assets, name).Some? then [AlreadyExists] else [])
  }

  function DescriptionErrors(description: string): (errs: seq<FieldError>)
  {
    LengthErrors(description, -1, DescriptionMax)
  }

  predicate AssetValid(assets: seq<Asset>, f: AssetFields)
  {
    NameErrors(assets, f.name) == [] && DescriptionErrors(f.description) == []
  }

  // What each form accepts, stated without reference to the validator chain.

  lemma RegistrationValidIff(users: seq<User>, f: Registration)
    ensures RegistrationValid(users, f) <==>
      && HasContent(f.username)
      && 3 <= |f.username| <= 150
      && (forall i :: 0 <= i < |users| ==> users[i].username != f.username)
      && HasContent(f.password)
      && 6 <= |f.password|
      && f.confirmPassword == f.password
  {
  }

  /** A username is refused as a duplicate exactly when some user already has it,
      and then `AlreadyExists` is among its errors whatever else is wrong. */
  lemma UsernameTakenIff(users: seq<User>, username: string)
    requires HasContent(username)
    ensures AlreadyExists in UsernameErrors(users, username) <==>
      exists i :: 0 <= i < |users| && users[i].username == username
  {
  }

  lemma PasswordRuleIff(password: string)
    ensures PasswordErrors(password) == [] <==> HasContent(password) && |password| >= 6
  {
  }

  /** Only length is checked: a lower-case dictionary word passes. */
  lemma PasswordHasNoComplexityRule()
    ensures PasswordErrors("password") == []
    ensures PasswordErrors("Passw0rd$") == []
    ensures PasswordErrors("abc12") == [WrongLength]
  {
    assert !IsSpace("password"[0]);
    assert !IsSpace("Passw0rd$"[0]);
    assert !IsSpace("abc12"[0]);
  }

  lemma UsernameLengthExamples(users: seq<User>)
    requires forall i :: 0 <= i < |users| ==> users[i].username != "validuser"
    ensures UsernameErrors(users, "ab") != []
    ensures UsernameErrors(users, "validuser") == []
  {
    assert !IsSpace("ab"[0]);
    assert !IsSpace("validuser"[0]);
  }

  /** Whitespace alone does not count as data. */
  lemma BlankFieldsRequired(users: seq<User>)
    ensures UsernameErrors(users, "   ") == [Required]
    ensures PasswordErrors("      ") == [Required]
  {
    assert forall i :: 0 <= i < 3 ==> "   "[i] == ' ';
    assert forall i :: 0 <= i < 6 ==> "      "[i] == ' ';
  }

  lemma LoginRequiresBothFields(f: LoginFields)
    ensures LoginValid(f) ==> |f.username| > 0 && |f.password| > 0
    ensures f.username == [] || f.password == [] ==> !LoginValid(f)
  {
  }

  lemma AssetValidIff(assets: seq<Asset>, f: AssetFields)
    ensures AssetValid(assets, f) <==>
      && HasContent(f.name)
      && |f.name| <= 200
      && (forall i :: 0 <= i < |assets| ==> assets[i].name != f.name)
      && |f.description| <= 500
  {
  }

  /** The name check compares against every stored asset, including the one
      being edited: resubmitting an asset's own name is refused. */
  lemma NoEditExemption(assets: seq<Asset>, i: nat, description: string)
    requires i < |assets|
    requires HasContent(assets[i].name)
    ensures AlreadyExists in NameErrors(assets, assets[i].name)
    ensures !AssetValid(assets, AssetFields(assets[i].name, description))
  {
  }

  /** With a well-formed duplicate name, the first (and only) error reported is
      the duplicate. */
  lemma DuplicateNameFirstError(assets: seq<Asset>, name: string)
    requires HasContent(name) && |name| <= 200
    requires AssetNameInUse(assets, name)
    ensures NameErrors(assets, name) == [AlreadyExists]
  {
  }

  /** The form admits names that the declared column width does not: in any
      store, an unused name of 101 to 200 characters passes. */
  lemma FormAdmitsNamesWiderThanColumn(assets: seq<Asset>, name: string)
    requires AssetNameWidth < |name| <= AssetNameMax
    requires HasContent(name)
    requires !AssetNameInUse(assets, name)
    ensures NameErrors(assets, name) == []
  {
  }
}
