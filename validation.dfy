/** The request-body rule chains run before the user, store, rating and
    password-change handlers, and the step that turns failures into a 400
    reply. Every rule of a chain runs (none stops the chain), so a reply lists
    every failed rule, field by field in chain order. A field missing from the
    body is checked as the empty string, as the rules convert it; the address,
    the one field a body may leave out and still pass, is kept optional so
    that the handlers can tell it was not sent. */
module Validation {
  import opened Common

  const NameMessage := "Name must be between 20 and 60 characters"
  const EmailMessage := "Must provide a valid email address"
  const PasswordLengthMessage := "Password must be between 8 and 16 characters"
  const PasswordUpperMessage := "Password must contain at least one uppercase letter"
  const PasswordSpecialMessage := "Password must contain at least one special character"
  const AddressMessage := "Address must be at most 400 characters"
  const RatingMessage := "Rating must be a number between 1 and 5"
  const CurrentPasswordMessage := "Current password is required"

  /** The characters of the class `[!@#$%^&*(),.?":{}|<>]`. */
  const Specials := "!@#$%^&*(),.?\":{}|<>"

  // The rules, one predicate each.

  predicate NameOk(name: string) { 3 <= |name| <= 60 }

  predicate AddressOk(address: string) { |address| <= 400 }

  predicate PasswordLengthOk(p: string) { 8 <= |p| <= 16 }

  predicate HasUpper(p: string) { exists i :: 0 <= i < |p| && 'A' <= p[i] <= 'Z' }

  predicate HasSpecial(p: string) { exists i :: 0 <= i < |p| && p[i] in Specials }

  predicate StrongPassword(p: string) {
    PasswordLengthOk(p) && HasUpper(p) && HasSpecial(p)
  }

  /** `isInt({ min: 1, max: 5 })` on a JSON number. */
  predicate RatingOk(r: real) { r == r.Floor as real && 1.0 <= r <= 5.0 }

  /** The failure one rule contributes: nothing when it holds. */
  function Check(ok: bool, field: string, message: string): (r: seq<FieldError>)
    ensures ok ==> r == []
    ensures !ok ==> r == [FieldError(field, message)]
  {
    if ok then [] else [FieldError(field, message)]
  }

  /** The three password rules of one field, in chain order. */
  function PasswordErrors(field: string, p: string): (r: seq<FieldError>)
    ensures r == [] <==> StrongPassword(p)
    ensures FieldError(field, PasswordLengthMessage) in r <==> !PasswordLengthOk(p)
    ensures FieldError(field, PasswordUpperMessage) in r <==> !HasUpper(p)
    ensures FieldError(field, PasswordSpecialMessage) in r <==> !HasSpecial(p)
    ensures forall e :: e in r ==> e.field == field
    ensures forall e :: e in r ==>
              e.message in {PasswordLengthMessage, PasswordUpperMessage, PasswordSpecialMessage}
    ensures |r| == (if PasswordLengthOk(p) then 0 else 1) + (if HasUpper(p) then 0 else 1)
                   + (if HasSpecial(p) then 0 else 1)
  {
    Check(PasswordLengthOk(p), field, PasswordLengthMessage)
      + Check(HasUpper(p), field, PasswordUpperMessage)
      + Check(HasSpecial(p), field, PasswordSpecialMessage)
  }

  /** The fields of a user body the rules look at; `address` is None when
      the body has no address. */
  datatype UserBody = UserBody(name: string, email: string, password: string, address: Option<string>)

  /** The fields of a store body the rules look at; `address` as in `UserBody`. */
  datatype StoreBody = StoreBody(name: string, email: string, address: Option<string>)

  /** The address a rule checks: an absent one is checked as "". */
  function AddressText(address: Option<string>): string {
    address.GetOr("")
  }

  predicate UserBodyOk(b: UserBody, isEmail: string -> bool) {
    NameOk(b.name) && isEmail(b.email) && StrongPassword(b.password) && AddressOk(AddressText(b.address))
  }

  predicate StoreBodyOk(b: StoreBody, isEmail: string -> bool) {
    NameOk(b.name) && isEmail(b.email) && AddressOk(AddressText(b.address))
  }

  /** `validateUser`; `isEmail` is the email-syntax test of the validator library. */
  function ValidateUser(b: UserBody, isEmail: string -> bool): (r: seq<FieldError>)
    ensures r == [] <==> UserBodyOk(b, isEmail)
    ensures FieldError("name", NameMessage) in r <==> !NameOk(b.name)
    ensures FieldError("email", EmailMessage) in r <==> !isEmail(b.email)
    ensures FieldError("address", AddressMessage) in r <==> !AddressOk(AddressText(b.address))
    ensures forall e :: e in r && e.field == "password" <==> e in PasswordErrors("password", b.password)
    ensures forall e :: e in r ==>
              || e == FieldError("name", NameMessage) || e == FieldError("email", EmailMessage)
              || e == FieldError("address", AddressMessage) || e in PasswordErrors("password", b.password)
    ensures |r| == (if NameOk(b.name) then 0 else 1) + (if isEmail(b.email) then 0 else 1)
                   + |PasswordErrors("password", b.password)| + (if AddressOk(AddressText(b.address)) then 0 else 1)
  {
    Check(NameOk(b.name), "name", NameMessage)
      + Check(isEmail(b.email), "email", EmailMessage)
      + PasswordErrors("password", b.password)
      + Check(AddressOk(AddressText(b.address)), "address", AddressMessage)
  }

  /** `validateStore`: the user rules without the password. */
  function ValidateStore(b: StoreBody, isEmail: string -> bool): (r: seq<FieldError>)
    ensures r == [] <==> StoreBodyOk(b, isEmail)
    ensures FieldError("name", NameMessage) in r <==> !NameOk(b.name)
    ensures FieldError("email", EmailMessage) in r <==> !isEmail(b.email)
    ensures FieldError("address", AddressMessage) in r <==> !AddressOk(AddressText(b.address))
    ensures forall e :: e in r ==> e.field != "password"
    ensures forall e :: e in r ==>
              || e == FieldError("name", NameMessage) || e == FieldError("email", EmailMessage)
              || e == FieldError("address", AddressMessage)
    ensures |r| == (if NameOk(b.name) then 0 else 1) + (if isEmail(b.email) then 0 else 1)
                   + (if AddressOk(AddressText(b.address)) then 0 else 1)
  {
    Check(NameOk(b.name), "name", NameMessage)
      + Check(isEmail(b.email), "email", EmailMessage)
      + Check(AddressOk(AddressText(b.address)), "address", AddressMessage)
  }

  /** `validateRating`. */
  function ValidateRating(rating: real): (r: seq<FieldError>)
    ensures r == [] <==> rating.Floor in {1, 2, 3, 4, 5} && rating.Floor as real == rating
    ensures r != [] ==> r == [FieldError("rating", RatingMessage)]
  {
    if RatingOk(rating) then [] else [FieldError("rating", RatingMessage)]
  }

  /** `validatePasswordUpdate`. */
  function ValidatePasswordUpdate(currentPassword: string, newPassword: string): (r: seq<FieldError>)
    ensures r == [] <==> currentPassword != "" && StrongPassword(newPassword)
    ensures FieldError("currentPassword", CurrentPasswordMessage) in r <==> currentPassword == ""
    ensures forall e :: e in r && e.field == "newPassword" <==> e in PasswordErrors("newPassword", newPassword)
    ensures forall e :: e in r ==>
              e == FieldError("currentPassword", CurrentPasswordMessage) || e in PasswordErrors("newPassword", newPassword)
    ensures |r| == (if currentPassword == "" then 1 else 0) + |PasswordErrors("newPassword", newPassword)|
  {
    Check(currentPassword != "", "currentPassword", CurrentPasswordMessage)
      + PasswordErrors("newPassword", newPassword)
  }

  /** `handleValidation`: None lets the handler run; otherwise the 400 reply
      listing every failure. */
  function HandleValidation<T>(errors: seq<FieldError>): (r: Option<Reply<T>>)
    ensures r.None? <==> errors == []
    ensures r.Some? ==> r.value.Status() == 400 && r.value == Invalid(errors)
  {
    if errors == [] then None else Some(Invalid(errors))
  }
}
