/**
  The edit-profile modal (src/pages/EditProfileModal.tsx): initials
  generated from the name, the avatar shown when none is set, the
  name-required check guarding the update request, and the session update
  that follows it.

  `GenerateAvatar` follows the source's branches, including what JavaScript
  does when two spaces follow the first word: `words[1][0]` is then
  `undefined`, which string concatenation spells out. Strings here are
  sequences of characters, whereas JavaScript indexes UTF-16 code units;
  the two differ only for characters outside the Basic Multilingual Plane.
 */
module EditProfile {
  import opened Common
  import opened JsText
  import LocalStorageToken

  datatype ProfileForm = ProfileForm(name: string, email: string, avatar: string)

  /** The initial form: the signed-in user's fields, "" where a field is missing. */
  function InitialForm(userName: Option<string>, email: Option<string>, avatar: Option<string>): (f: ProfileForm)
    ensures userName.None? ==> f.name == ""
    ensures userName.Some? ==> f.name == userName.value
    ensures email.None? ==> f.email == ""
    ensures email.Some? ==> f.email == email.value
    ensures avatar.None? ==> f.avatar == ""
    ensures avatar.Some? ==> f.avatar == avatar.value
  {
    ProfileForm(
      if userName.Some? then userName.value else "",
      if email.Some? then email.value else "",
      if avatar.Some? then avatar.value else "")
  }

  // ---------------------------------------------------------------------
  // Initials
  // ---------------------------------------------------------------------

  /** `w[0]` as a string operand: the first character, or "undefined" for an empty word. */
  function FirstCharText(w: string): (r: string)
    ensures w != "" ==> r == [w[0]]
  {
    if w == "" then "undefined" else [w[0]]
  }

  function Min(a: nat, b: nat): nat {
    if a <= b then a else b
  }

  /**
    `generateAvatar()`: "" for a blank name; with a space in the trimmed
    name, the first letters of the first two space-separated words;
    otherwise its first two characters; upper-cased. Any initials start
    with the trimmed name's first character, upper-cased.
   */
  function GenerateAvatar(name: string): (initials: string)
    ensures initials != "" ==> Trim(name) != "" && initials[0] == UpperChar(Trim(name)[0])
  {
    var t := Trim(name);
    if t == "" then ""
    else
      var words := Split(t, ' ');
      if |words| > 1 then
        FirstWordStartsName(t);
        ToUpper(FirstCharText(words[0]) + FirstCharText(words[1]))
      else ToUpper(t[..Min(2, |t|)])
  }

  /** The first word of a trimmed name is never empty, and starts the name. */
  lemma FirstWordStartsName(t: string)
    requires t != "" && !IsWhitespace(t[0])
    ensures Split(t, ' ')[0] != "" && Split(t, ' ')[0][0] == t[0]
  {
    SplitHead(t, ' ');
  }

  /** When the first space is followed by a non-space, the second word starts right after it. */
  lemma SecondWordStart(t: string)
    requires ' ' in t
    requires IndexOf(t, ' ') + 1 < |t| && t[IndexOf(t, ' ') + 1] != ' '
    ensures Split(t, ' ')[1] != "" && Split(t, ' ')[1][0] == t[IndexOf(t, ' ') + 1]
  {
    var rest := t[IndexOf(t, ' ') + 1..];
    SplitSecond(t, ' ');
    SplitHead(rest, ' ');
  }

  /** When the first space is followed by another, the second word is empty. */
  lemma SecondWordEmpty(t: string)
    requires ' ' in t
    requires IndexOf(t, ' ') + 1 < |t| && t[IndexOf(t, ' ') + 1] == ' '
    ensures |Split(t, ' ')| > 1 && Split(t, ' ')[1] == ""
  {
    var rest := t[IndexOf(t, ' ') + 1..];
    SplitSecond(t, ' ');
    assert IndexOf(rest, ' ') == 0;
  }

  /** The texts `words[0][0]` and `words[1][0]` contribute for a trimmed name with a space. */
  lemma InitialTexts(name: string) returns (first: string, second: string)
    requires ' ' in Trim(name)
    ensures var t := Trim(name);
      && first == [t[0]]
      && (t[IndexOf(t, ' ') + 1] != ' ' ==> second == [t[IndexOf(t, ' ') + 1]])
      && (t[IndexOf(t, ' ') + 1] == ' ' ==> second == "undefined")
      && GenerateAvatar(name) == ToUpper(first + second)
  {
    var t := Trim(name);
    var words := Split(t, ' ');
    FirstWordStartsName(t);
    if t[IndexOf(t, ' ') + 1] != ' ' {
      SecondWordStart(t);
    } else {
      SecondWordEmpty(t);
    }
    first, second := FirstCharText(words[0]), FirstCharText(words[1]);
  }

  /**
    A trimmed name whose first space is followed by a non-space character
    gives the upper-cased first characters of its first two words.
   */
  lemma AvatarTwoWords(name: string)
    requires ' ' in Trim(name)
    requires var t := Trim(name); t[IndexOf(t, ' ') + 1] != ' '
    ensures var t := Trim(name);
      GenerateAvatar(name) == ToUpper([t[0], t[IndexOf(t, ' ') + 1]])
  {
    var first, second := InitialTexts(name);
    assert first + second == [Trim(name)[0], Trim(name)[IndexOf(Trim(name), ' ') + 1]];
  }

  /** A one-word name gives its first two characters (or its only one), upper-cased. */
  lemma AvatarOneWord(name: string)
    requires Trim(name) != "" && ' ' !in Trim(name)
    ensures var t := Trim(name);
      && GenerateAvatar(name) == ToUpper(t[..Min(2, |t|)])
      && 1 <= |GenerateAvatar(name)| <= 2
  {
  }

  /**
    Two spaces after the first word make `words[1][0]` undefined: the
    initials are the first letter followed by "UNDEFINED".
   */
  lemma AvatarDoubleSpace(name: string)
    requires ' ' in Trim(name)
    requires var t := Trim(name); t[IndexOf(t, ' ') + 1] == ' '
    ensures GenerateAvatar(name) == ToUpper([Trim(name)[0]] + "undefined")
  {
    var first, second := InitialTexts(name);
  }

  /** The initials are empty exactly when the name is blank. */
  lemma AvatarEmptyIff(name: string)
    ensures GenerateAvatar(name) == "" <==> AllWhitespace(name)
  {
    TrimEmptyIff(name);
  }

  /** The smallest name showing it: "Ann  Lee" gets the initials "AUNDEFINED". */
  lemma AvatarDoubleSpaceExample(name: string)
    requires name == "Ann  Lee"
    ensures GenerateAvatar(name) == "AUNDEFINED"
  {
    AnnLeeShape(name);
    AvatarDoubleSpace(name);
    var initials := [Trim(name)[0]] + "undefined";
    assert Trim(name)[0] == 'A';
    assert initials == "Aundefined";
    UpperOfAundefined();
  }

  lemma AnnLeeShape(name: string)
    requires name == "Ann  Lee"
    ensures Trim(name) == name && ' ' in name && IndexOf(name, ' ') == 3 && name[4] == ' '
  {
    assert !IsWhitespace(name[0]) && !IsWhitespace(name[|name| - 1]);
    TrimFixpoint(name);
    assert name[3] == ' ' && ' ' !in name[..3];
  }

  lemma UpperOfAundefined()
    ensures ToUpper("Aundefined") == "AUNDEFINED"
  {
    var r := ToUpper("Aundefined");
    assert |r| == 10;
    forall k | 0 <= k < 10 ensures r[k] == "AUNDEFINED"[k] {
      assert r[k] == UpperChar("Aundefined"[k]);
    }
  }

  /**
    The avatar circle: the chosen avatar, or generated initials when it is
    empty; it is blank only when both the avatar and the name are.
   */
  function DisplayedAvatar(f: ProfileForm): (shown: string)
    ensures f.avatar != "" ==> shown == f.avatar
    ensures f.avatar == "" ==> shown == GenerateAvatar(f.name)
    ensures shown == "" <==> f.avatar == "" && AllWhitespace(f.name)
  {
    AvatarEmptyIff(f.name);
    if f.avatar != "" then f.avatar else GenerateAvatar(f.name)
  }

  /** The regenerate button stores the initials, so the circle then shows them. */
  function Regenerated(f: ProfileForm): ProfileForm {
    f.(avatar := GenerateAvatar(f.name))
  }

  lemma RegenerateShowsInitials(f: ProfileForm)
    ensures DisplayedAvatar(Regenerated(f)) == GenerateAvatar(f.name)
    ensures DisplayedAvatar(Regenerated(f)) == DisplayedAvatar(f.(avatar := ""))
  {
  }

  // ---------------------------------------------------------------------
  // Saving
  // ---------------------------------------------------------------------

  /** The `UserCreateDto` sent with the user's id. */
  datatype UpdateRequest = UpdateRequest(id: UserId, name: string, email: string, avatar: string, phoneNumber: string)

  const NameRequiredMessage: string := "Name is required"

  /**
    `handleSubmit`: the update is refused with "Name is required" exactly
    when the name is blank; an accepted update sends the name untrimmed,
    with the email and avatar as typed and an empty phone number.
   */
  function SaveProfile(userId: UserId, f: ProfileForm): (r: Result<UpdateRequest, string>)
    ensures r.Err? <==> AllWhitespace(f.name)
    ensures r.Err? ==> r.error == NameRequiredMessage
    ensures r.Ok? ==> r.value == UpdateRequest(userId, f.name, f.email, f.avatar, "")
  {
    TrimEmptyIff(f.name);
    if Trim(f.name) == "" then Err(NameRequiredMessage)
    else Ok(UpdateRequest(userId, f.name, f.email, f.avatar, ""))
  }

  /** A saved profile always has initials to show: the name check rules out an empty fallback. */
  lemma SavedProfileHasAvatar(userId: UserId, f: ProfileForm)
    requires SaveProfile(userId, f).Ok?
    ensures DisplayedAvatar(f) != ""
  {
  }

  // ---------------------------------------------------------------------
  // The session after a save
  // ---------------------------------------------------------------------

  /**
    The session update a successful save intends: the signed-in user's
    record with the new name and avatar, handed to `setCurrentUser` as a
    user. Memory and storage stay in step, the new name and avatar are
    both current and stored, the access token is kept, and other keys are
    untouched. Without a signed-in user there is nothing to update.
   */
  function SessionAfterSave(s: LocalStorageToken.Session, f: ProfileForm): (r: LocalStorageToken.Session)
    ensures LocalStorageToken.InSync(s) ==> LocalStorageToken.InSync(r)
    ensures s.currentUser.Some? ==>
      && r.currentUser.Some?
      && r.currentUser.value.userName == f.name && r.currentUser.value.avatar == f.avatar
      && r.currentUser.value.userId == s.currentUser.value.userId
      && LocalStorageToken.StoredUser(r.storage) == r.currentUser
    ensures LocalStorageToken.TokenOf(r) == LocalStorageToken.TokenOf(s)
    ensures LocalStorageToken.OthersUnchanged(s.storage, r.storage)
  {
    match s.currentUser
    case None => s
    case Some(prev) => LocalStorageToken.WithUser(s, prev.(userName := f.name, avatar := f.avatar))
  }
}
