/** The `InputField` component (src/components/InputField.tsx): a pure
    function from its props and its one state cell (password visibility) to
    what it renders, plus the show/hide click. */
module InputField {
  import opened JsValues

  datatype InputType = Text | Password
  datatype Variant = Filled | Outlined | Ghost
  datatype Size = Sm | Md | Lg

  /** The component's props; every one is optional. */
  datatype Props = Props(
    value: Option<string>,
    fieldLabel: Option<string>,
    placeholder: Option<string>,
    helperText: Option<string>,
    errorMessage: Option<string>,
    disabled: Option<bool>,
    invalid: Option<bool>,
    loading: Option<bool>,
    inputType: Option<InputType>,
    variant: Option<Variant>,
    size: Option<Size>)

  /** The `showPassword` state cell. */
  datatype FieldState = FieldState(showPassword: bool)

  /** A freshly mounted field masks its content. */
  const Initial := FieldState(false)

  /** What the component renders. `toggle` is the show/hide button label when
      the button exists; `helper` and `error` are the texts of the two message
      paragraphs when they are rendered. */
  datatype FieldView = FieldView(
    fieldLabel: Option<string>,
    value: Option<string>,
    placeholder: Option<string>,
    disabled: bool,
    renderedType: InputType,
    toggle: Option<string>,
    helper: Option<string>,
    error: Option<string>,
    variant: Variant,
    size: Size)

  /** A destructuring default: the prop when given, otherwise `d`. */
  function OrDefault<T>(o: Option<T>, d: T): (r: T)
    ensures o.None? ==> r == d
    ensures o.Some? ==> r == o.value
  {
    match o
    case Some(v) => v
    case None => d
  }

  /** The declared type after defaulting to "text". */
  function DeclaredType(p: Props): InputType {
    OrDefault(p.inputType, Text)
  }

  /** The text of the helper paragraph, rendered only for a valid field with
      non-empty helper text; while loading it reads "loading...". */
  function HelperMessage(p: Props): (r: Option<string>)
    ensures r.Some? <==> Truthy(p.helperText) && !IsTrue(p.invalid)
    ensures r.Some? && IsTrue(p.loading) ==> r.value == "loading..."
    ensures r.Some? && !IsTrue(p.loading) ==> r.value == p.helperText.value
  {
    if Truthy(p.helperText) && !IsTrue(p.invalid) then
      Some(if IsTrue(p.loading) then "loading..." else p.helperText.value)
    else None
  }

  /** The text of the error paragraph, rendered only for an invalid field with
      a non-empty error message. */
  function ErrorMessage(p: Props): (r: Option<string>)
    ensures r.Some? <==> IsTrue(p.invalid) && Truthy(p.errorMessage)
    ensures r.Some? ==> r.value == p.errorMessage.value && |r.value| > 0
  {
    if IsTrue(p.invalid) && Truthy(p.errorMessage) then Some(p.errorMessage.value) else None
  }

  /** What the component renders for props `p` in state `st`. */
  function Render(p: Props, st: FieldState): (v: FieldView)
    ensures !(v.helper.Some? && v.error.Some?)
    ensures v.helper == HelperMessage(p) && v.error == ErrorMessage(p)
    ensures v.renderedType == Password <==> DeclaredType(p) == Password && !st.showPassword
    ensures v.toggle.Some? <==> DeclaredType(p) == Password
    ensures v.toggle.Some? ==> (v.toggle.value == "hide" <==> st.showPassword)
    ensures v.toggle.Some? ==> v.toggle.value in {"hide", "show"}
    ensures v.fieldLabel.Some? <==> Truthy(p.fieldLabel)
    ensures v.fieldLabel.Some? ==> v.fieldLabel == p.fieldLabel
    ensures v.value == p.value && v.placeholder == p.placeholder
    ensures v.disabled <==> IsTrue(p.disabled)
    ensures v.variant == OrDefault(p.variant, Outlined) && v.size == OrDefault(p.size, Md)
  {
    var isPassword := DeclaredType(p) == Password;
    FieldView(
      if Truthy(p.fieldLabel) then p.fieldLabel else None,
      p.value,
      p.placeholder,
      IsTrue(p.disabled),
      if isPassword && !st.showPassword then Password else Text,
      if isPassword then Some(if st.showPassword then "hide" else "show") else None,
      HelperMessage(p),
      ErrorMessage(p),
      OrDefault(p.variant, Outlined),
      OrDefault(p.size, Md))
  }

  /** A click on the show/hide button flips visibility. */
  function ClickShowHide(st: FieldState): (r: FieldState)
    ensures r.showPassword != st.showPassword
  {
    FieldState(!st.showPassword)
  }

  /** The helper and error paragraphs are never both rendered. */
  lemma MessagesExclusive(p: Props, st: FieldState)
    ensures Render(p, st).helper.None? || Render(p, st).error.None?
  {
  }

  /** Props left unspecified render as a text input, outlined, medium size. */
  lemma Defaults(p: Props, st: FieldState)
    requires p.inputType.None? && p.variant.None? && p.size.None?
    ensures Render(p, st).renderedType == Text
    ensures Render(p, st).toggle.None?
    ensures Render(p, st).variant == Outlined && Render(p, st).size == Md
  {
  }

  /** A freshly mounted password field masks its content and offers "show". */
  lemma PasswordStartsMasked(p: Props)
    requires p.inputType == Some(Password)
    ensures Render(p, Initial).renderedType == Password
    ensures Render(p, Initial).toggle == Some("show")
  {
  }

  /** The show/hide click unmasks a masked password field and masks an
      unmasked one, and does not touch the value passed to the input. */
  lemma ShowHideFlipsMasking(p: Props, st: FieldState)
    requires DeclaredType(p) == Password
    ensures var before, after := Render(p, st), Render(p, ClickShowHide(st));
      && (before.renderedType == Password <==> after.renderedType == Text)
      && after.value == before.value
      && after.toggle != before.toggle
  {
  }

  /** Two clicks restore the visibility state. */
  lemma ShowHideTwice(st: FieldState)
    ensures ClickShowHide(ClickShowHide(st)) == st
  {
  }

  /** A text field renders as text whatever the visibility state. */
  lemma TextFieldNeverMasked(p: Props, st: FieldState)
    requires DeclaredType(p) == Text
    ensures Render(p, st).renderedType == Text && Render(p, st).toggle.None?
  {
  }
}
