/**
 * The user entity of internal/domain/entities/users.go: the validating
 * constructor, the two mutators that re-validate before changing the receiver,
 * and the three validators behind them.
 */
module Entities {
  import opened Results
  import opened Text

  /** A point in time, as supplied by the caller in place of `time.Now()`. */
  type Time = int

  /** The validators' errors, one per `errors.New` in the source. */
  datatype EntityError =
    | EmptyEmail | InvalidEmail | EmailTooLong
    | EmptyName | NameTooShort | NameTooLong | OffensiveName | InvalidNameChars
    | EmptyPassword | PasswordTooShort | PasswordTooLong

  /** The text each error carries. */
  function EntityMessage(e: EntityError): string {
    match e
    case EmptyEmail => "email can't be empty"
    case InvalidEmail => "invalid email"
    case EmailTooLong => "email too long"
    case EmptyName => "empty name"
    case NameTooShort => "brother nobody has such a short name"
    case NameTooLong => "brother nobody has such a long name"
    case OffensiveName => "offensive name non appropri\U{E9}"
    case InvalidNameChars => "nom contient des caract\U{E8}res invalides"
    case EmptyPassword => "mot de passe ne peut pas \U{EA}tre vide"
    case PasswordTooShort => "mot de passe trop court (min 6 caract\U{E8}res)"
    case PasswordTooLong => "mot de passe trop long (max 128 caract\U{E8}res)"
  }

  /** The fields of a user, as a value: what `userCopy := *user` copies. */
  datatype UserData = UserData(
    id: int, email: string, name: string, password: string, created: Time, updated: Time)

  // ---------------------------------------------------------------------------
  // Validators
  // ---------------------------------------------------------------------------

  /** What the e-mail rules accept, stated as one condition on the trimmed text. */
  predicate EmailAcceptable(email: string) {
    var t := TrimSpace(email);
    '@' in t && ByteLen(t) <= 255
  }

  /** `validateEmail`: on the trimmed text, emptiness, then a missing `@`, then the length. */
  function ValidateEmail(email: string): (r: Outcome<EntityError>)
    ensures r.Pass? <==> EmailAcceptable(email)
  {
    var t := TrimSpace(email);
    if t == [] then Fail(EmptyEmail)
    else if '@' !in t then Fail(InvalidEmail)
    else if ByteLen(t) > 255 then Fail(EmailTooLong)
    else Pass
  }

  /** The words the offensive-name pattern looks for, case-insensitively, anywhere in the name. */
  const OffensiveWords: seq<string> := ["fuck", "shit", "damn", "idiot", "stupid", "hitler", "cunt"]

  /**
   * The rune that `(?i)` matching compares with a lower-case ASCII letter: the
   * ASCII capitals fold to their lower case, and the two non-ASCII runes whose
   * simple case-folding orbit holds an ASCII letter fold too (U+017F long s to
   * `s`, U+212A Kelvin sign to `k`).
   */
  function FoldRune(c: char): char {
    if 'A' <= c <= 'Z' then (c as int + 32) as char
    else if c == '\U{17F}' then 's'
    else if c == '\U{212A}' then 'k'
    else c
  }

  /** `word` occurs in `s` at position `i`, ignoring case. */
  predicate FoldedMatchAt(s: string, i: nat, word: string)
    requires i + |word| <= |s|
  {
    forall k :: 0 <= k < |word| ==> FoldRune(s[i + k]) == word[k]
  }

  /**
   * `offensiveNameRegex.MatchString`: some offensive word occurs somewhere in
   * `s`, ignoring case. Every word is at least four runes long, so shorter
   * text never matches.
   */
  predicate IsOffensive(s: string): (found: bool)
    ensures found ==> |s| >= 4
  {
    assert forall w :: 0 <= w < |OffensiveWords| ==> |OffensiveWords[w]| >= 4;
    exists w, i :: 0 <= w < |OffensiveWords| && 0 <= i <= |s| - |OffensiveWords[w]|
                   && FoldedMatchAt(s, i, OffensiveWords[w])
  }

  /**
   * The runes of the class `[a-zA-ZÀ-ÿ\s\-'.]`, where RE2's `\s` is
   * `[\t\n\f\r ]`: only Latin-1 runes, and every ASCII white space but the
   * vertical tab.
   */
  predicate IsNameRune(c: char): (allowed: bool)
    ensures allowed ==> c as int <= 0xFF
    ensures '\t' <= c <= '\r' || c == ' ' ==> (allowed <==> c != '\U{0B}')
  {
    ('a' <= c <= 'z') || ('A' <= c <= 'Z') || ('\U{C0}' <= c <= '\U{FF}') || IsNameMark(c)
  }

  /** The class's spaces and punctuation: `\t`, `\n`, `\f`, `\r`, the space, `-`, `'` and `.`. */
  predicate IsNameMark(c: char) {
    ('\t' <= c <= '\r' && c != '\U{0B}') || c == ' ' || c == '-' || c == '\'' || c == '.'
  }

  /** What the name rules accept, stated as one condition on the trimmed name. */
  predicate NameAcceptable(name: string) {
    var t := TrimSpace(name);
    && 2 <= ByteLen(t) <= 100
    && !IsOffensive(t)
    && forall i :: 0 <= i < |t| ==> IsNameRune(t[i])
  }

  /**
   * `validateName`: on the trimmed name, emptiness, then the byte length bounds,
   * then the offensive words, then the character class.
   */
  function ValidateName(name: string): (r: Outcome<EntityError>)
    ensures r.Pass? <==> NameAcceptable(name)
  {
    var t := TrimSpace(name);
    if t == [] then Fail(EmptyName)
    else if ByteLen(t) < 2 then Fail(NameTooShort)
    else if ByteLen(t) > 100 then Fail(NameTooLong)
    else if IsOffensive(t) then Fail(OffensiveName)
    else if exists i :: 0 <= i < |t| && !IsNameRune(t[i]) then Fail(InvalidNameChars)
    else Pass
  }

  /** What the password rules accept: the untrimmed byte length lies in [6, 128]. */
  predicate PasswordAcceptable(password: string) {
    6 <= ByteLen(password) <= 128
  }

  /** `validatePassword`: emptiness, then the byte length bounds, on the raw text. */
  function ValidatePassword(password: string): (r: Outcome<EntityError>)
    ensures r.Pass? <==> PasswordAcceptable(password)
  {
    if password == [] then Fail(EmptyPassword)
    else if ByteLen(password) < 6 then Fail(PasswordTooShort)
    else if ByteLen(password) > 128 then Fail(PasswordTooLong)
    else Pass
  }

  /** Which check rejects an e-mail address: the first that fails, in the source's order. */
  lemma ValidateEmailErrors(email: string)
    ensures ValidateEmail(email) == Fail(EmptyEmail) <==> TrimSpace(email) == []
    ensures ValidateEmail(email) == Fail(InvalidEmail) <==>
              TrimSpace(email) != [] && '@' !in TrimSpace(email)
    ensures ValidateEmail(email) == Fail(EmailTooLong) <==>
              '@' in TrimSpace(email) && ByteLen(TrimSpace(email)) > 255
  {
  }

  /** Which check rejects a name: the first that fails, in the source's order. */
  lemma ValidateNameErrors(name: string)
    ensures ValidateName(name) == Fail(EmptyName) <==> TrimSpace(name) == []
    ensures ValidateName(name) == Fail(NameTooShort) <==>
              TrimSpace(name) != [] && ByteLen(TrimSpace(name)) < 2
    ensures ValidateName(name) == Fail(NameTooLong) <==> ByteLen(TrimSpace(name)) > 100
    ensures ValidateName(name) == Fail(OffensiveName) <==>
              2 <= ByteLen(TrimSpace(name)) <= 100 && IsOffensive(TrimSpace(name))
    ensures ValidateName(name) == Fail(InvalidNameChars) <==>
              2 <= ByteLen(TrimSpace(name)) <= 100 && !IsOffensive(TrimSpace(name))
              && exists i :: 0 <= i < |TrimSpace(name)| && !IsNameRune(TrimSpace(name)[i])
  {
  }

  /** Which check rejects a password: the first that fails, in the source's order. */
  lemma ValidatePasswordErrors(password: string)
    ensures ValidatePassword(password) == Fail(EmptyPassword) <==> password == []
    ensures ValidatePassword(password) == Fail(PasswordTooShort) <==>
              password != [] && ByteLen(password) < 6
    ensures ValidatePassword(password) == Fail(PasswordTooLong) <==> ByteLen(password) > 128
  {
  }

  /** `isValidUser` on a user's fields: all three validators accept them. */
  predicate IsValidRecord(u: UserData): (valid: bool)
    ensures valid <==> EmailAcceptable(u.email) && NameAcceptable(u.name) && PasswordAcceptable(u.password)
  {
    ValidateEmail(u.email).Pass? && ValidateName(u.name).Pass? && ValidatePassword(u.password).Pass?
  }

  /** The stored form of an e-mail address: trimmed, then lower-cased. */
  function NormalizeEmail(email: string): string {
    ToLower(TrimSpace(email))
  }

  // ---------------------------------------------------------------------------
  // Construction
  // ---------------------------------------------------------------------------

  /**
   * `NewUser` as a value: the three validators in the order e-mail, name,
   * password, the first failure returned unchanged; on success a user with id
   * 0, the normalised e-mail, the trimmed name, the raw password, and the
   * supplied time as both timestamps.
   */
  function NewUserRecord(email: string, name: string, password: string, now: Time)
    : (r: Result<UserData, EntityError>)
    ensures r.Ok? ==> r.value.id == 0 && r.value.password == password
                      && r.value.created == now && r.value.updated == now
                      && r.value.email == NormalizeEmail(email) && r.value.name == TrimSpace(name)
  {
    var e := ValidateEmail(email);
    if e.Fail? then Err(e.error)
    else
      var n := ValidateName(name);
      if n.Fail? then Err(n.error)
      else
        var p := ValidatePassword(password);
        if p.Fail? then Err(p.error)
        else Ok(UserData(0, NormalizeEmail(email), TrimSpace(name), password, now, now))
  }

  /**
   * `NewUser` succeeds exactly when all three validators accept, and otherwise
   * fails with the error of the first one to reject, in the order e-mail, name, password.
   */
  lemma NewUserRecordChecks(email: string, name: string, password: string, now: Time)
    ensures NewUserRecord(email, name, password, now).Ok? <==>
              EmailAcceptable(email) && NameAcceptable(name) && PasswordAcceptable(password)
    ensures !EmailAcceptable(email) ==>
              NewUserRecord(email, name, password, now) == Err(ValidateEmail(email).error)
    ensures EmailAcceptable(email) && !NameAcceptable(name) ==>
              NewUserRecord(email, name, password, now) == Err(ValidateName(name).error)
    ensures EmailAcceptable(email) && NameAcceptable(name) && !PasswordAcceptable(password) ==>
              NewUserRecord(email, name, password, now) == Err(ValidatePassword(password).error)
  {
  }

  /** An accepted e-mail address is still accepted once normalised. */
  lemma NormalizedEmailAcceptable(email: string)
    requires EmailAcceptable(email)
    ensures EmailAcceptable(NormalizeEmail(email))
  {
    var t := TrimSpace(email);
    ToLowerKeepsTrimmed(t);
    TrimSpaceOfTrimmed(ToLower(t));
    ToLowerKeepsAt(t);
    ToLowerKeepsByteLen(t);
  }

  /** An accepted name is still accepted once trimmed. */
  lemma TrimmedNameAcceptable(name: string)
    requires NameAcceptable(name)
    ensures NameAcceptable(TrimSpace(name))
  {
    TrimSpaceIdempotent(name);
  }

  /** `isValidUser` holds of every user that `NewUser` builds. */
  lemma NewUserIsValid(email: string, name: string, password: string, now: Time)
    requires NewUserRecord(email, name, password, now).Ok?
    ensures IsValidRecord(NewUserRecord(email, name, password, now).value)
  {
    NormalizedEmailAcceptable(email);
    TrimmedNameAcceptable(name);
  }

  /** The validation `UpdateUserProfile` runs: the name first, then the e-mail. */
  function ValidateProfile(name: string, email: string): (r: Outcome<EntityError>)
    ensures r.Pass? <==> NameAcceptable(name) && EmailAcceptable(email)
    ensures !NameAcceptable(name) ==> r == ValidateName(name)
    ensures NameAcceptable(name) && !EmailAcceptable(email) ==> r == ValidateEmail(email)
  {
    var n := ValidateName(name);
    if n.Fail? then n else ValidateEmail(email)
  }

  /**
   * A profile update that passes validation leaves a record valid exactly when
   * its password was valid: the trimmed name and the normalised e-mail it
   * stores are themselves accepted.
   */
  lemma ProfileUpdateKeepsValidity(d: UserData, newName: string, newEmail: string, now: Time)
    requires ValidateProfile(newName, newEmail).Pass?
    ensures IsValidRecord(d.(name := TrimSpace(newName), email := NormalizeEmail(newEmail), updated := now))
            <==> ValidatePassword(d.password).Pass?
  {
    NormalizedEmailAcceptable(newEmail);
    TrimmedNameAcceptable(newName);
  }

  /**
   * A password change that passes validation leaves a record valid exactly
   * when its e-mail and name were valid.
   */
  lemma PasswordChangeKeepsValidity(d: UserData, newPassword: string, now: Time)
    requires ValidatePassword(newPassword).Pass?
    ensures IsValidRecord(d.(password := newPassword, updated := now))
            <==> ValidateEmail(d.email).Pass? && ValidateName(d.name).Pass?
  {
  }

  // ---------------------------------------------------------------------------
  // The entity on the heap
  // ---------------------------------------------------------------------------

  /** `*entities.User`: a user object whose fields the mutators change in place. */
  class User {
    var id: int
    var email: string
    var name: string
    var password: string
    var created: Time
    var updated: Time

    /** The current field values. */
    function Data(): UserData
      reads this
    {
      UserData(id, email, name, password, created, updated)
    }

    /** `&userCopy` after `userCopy := *user`: a new object holding the given field values. */
    constructor FromData(d: UserData)
      ensures Data() == d
    {
      id, email, name, password, created, updated :=
        d.id, d.email, d.name, d.password, d.created, d.updated;
    }

    /** `isValidUser`: the current e-mail, name and password all pass their rules. */
    predicate IsValidUser(): (valid: bool)
      reads this
      ensures valid <==> EmailAcceptable(email) && NameAcceptable(name) && PasswordAcceptable(password)
    {
      IsValidRecord(Data())
    }

    /**
     * `UpdateUserProfile`: validates the name, then the e-mail; on failure the
     * user is untouched, on success the name is trimmed, the e-mail normalised
     * and `updated` set, while id, password and created stay.
     */
    method UpdateUserProfile(newName: string, newEmail: string, now: Time)
      returns (r: Outcome<EntityError>)
      modifies this
      ensures r == ValidateProfile(newName, newEmail)
      ensures r.Fail? ==> unchanged(this)
      ensures r.Pass? ==> name == TrimSpace(newName) && email == NormalizeEmail(newEmail) && updated == now
      ensures id == old(id) && password == old(password) && created == old(created)
    {
      r := ValidateName(newName);
      if r.Fail? {
        return;
      }
      r := ValidateEmail(newEmail);
      if r.Fail? {
        return;
      }
      name := TrimSpace(newName);
      email := NormalizeEmail(newEmail);
      updated := now;
    }

    /**
     * `ChangePassword`: validates the raw new password; on failure the user is
     * untouched, on success the password is replaced and `updated` set, and
     * nothing else changes.
     */
    method ChangePassword(newPassword: string, now: Time) returns (r: Outcome<EntityError>)
      modifies this
      ensures r == ValidatePassword(newPassword)
      ensures r.Fail? ==> unchanged(this)
      ensures r.Pass? ==> password == newPassword && updated == now
      ensures id == old(id) && email == old(email) && name == old(name) && created == old(created)
    {
      r := ValidatePassword(newPassword);
      if r.Fail? {
        return;
      }
      password := newPassword;
      updated := now;
    }
  }

  /** `NewUser`: a freshly allocated user built as `NewUserRecord` describes, or its error. */
  method NewUser(email: string, name: string, password: string, now: Time)
    returns (r: Result<User, EntityError>)
    ensures r.Ok? <==> NewUserRecord(email, name, password, now).Ok?
    ensures r.Err? ==> r.error == NewUserRecord(email, name, password, now).error
    ensures r.Ok? ==> fresh(r.value) && r.value.Data() == NewUserRecord(email, name, password, now).value
  {
    var built := NewUserRecord(email, name, password, now);
    if built.Err? {
      return Err(built.error);
    }
    var u := new User.FromData(built.value);
    r := Ok(u);
  }
}
