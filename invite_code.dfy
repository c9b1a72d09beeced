/**
  Joining a trip by invite code (src/pages/EnterInviteCode.tsx): the typed
  or pasted code is trimmed, an all-whitespace code is refused, and the
  submit button is enabled only for a code that would be accepted.
 */
module InviteCode {
  import opened Common
  import opened JsText

  /** The `JoinTripDto` sent to the API. */
  datatype JoinRequest = JoinRequest(inviteToken: string)

  const EmptyCodeMessage: string := "Please enter an invite code"

  /**
    `handleSubmit`: a code is refused exactly when it is all whitespace;
    an accepted code is sent trimmed: what was typed with its leading and
    trailing whitespace cut off, so it neither starts nor ends with
    whitespace.
   */
  function SubmitCode(inviteCode: string): (r: Result<JoinRequest, string>)
    ensures r.Err? <==> AllWhitespace(inviteCode)
    ensures r.Err? ==> r.error == EmptyCodeMessage
    ensures r.Ok? ==>
      var token := r.value.inviteToken;
      token != "" && !IsWhitespace(token[0]) && !IsWhitespace(token[|token| - 1])
    ensures r.Ok? ==> exists i, j ::
      && 0 <= i <= j <= |inviteCode|
      && AllWhitespace(inviteCode[..i]) && AllWhitespace(inviteCode[j..])
      && r.value.inviteToken == inviteCode[i..j]
  {
    var code := Trim(inviteCode);
    TrimEmptyIff(inviteCode);
    TrimIsPaddedSlice(inviteCode);
    if code == "" then Err(EmptyCodeMessage)
    else
      assert !IsWhitespace(code[0]) && !IsWhitespace(code[|code| - 1]);
      Ok(JoinRequest(code))
  }

  /**
    What is sent is determined by what was typed: a core that neither
    starts nor ends with whitespace, padded with whitespace on both sides,
    is sent as exactly that core.
   */
  lemma SentCodeIsCore(pre: string, core: string, post: string)
    requires AllWhitespace(pre) && AllWhitespace(post)
    requires core != "" && !IsWhitespace(core[0]) && !IsWhitespace(core[|core| - 1])
    ensures SubmitCode(pre + core + post) == Ok(JoinRequest(core))
  {
    TrimUnique(pre, core, post);
  }

  /**
    `handlePaste`: the clipboard text, trimmed, becomes the field's value:
    the clipboard with its leading and trailing whitespace cut off. It is
    empty exactly when the clipboard was blank, and trimming it again
    changes nothing.
   */
  function Pasted(clipboard: string): (code: string)
    ensures code == "" <==> AllWhitespace(clipboard)
    ensures Trim(code) == code
    ensures code == "" || (!IsWhitespace(code[0]) && !IsWhitespace(code[|code| - 1]))
    ensures exists i, j ::
      && 0 <= i <= j <= |clipboard|
      && AllWhitespace(clipboard[..i]) && AllWhitespace(clipboard[j..])
      && code == clipboard[i..j]
  {
    TrimEmptyIff(clipboard);
    TrimIdempotent(clipboard);
    TrimIsPaddedSlice(clipboard);
    Trim(clipboard)
  }

  /** The submit button's enabled state: no request in flight and a code that is not blank. */
  function SubmitEnabled(loading: bool, inviteCode: string): (enabled: bool)
    ensures enabled <==> !loading && !AllWhitespace(inviteCode)
  {
    TrimEmptyIff(inviteCode);
    !loading && Trim(inviteCode) != ""
  }

  /** Surrounding whitespace never changes what is sent. */
  lemma SubmitIgnoresPadding(pre: string, code: string, post: string)
    requires AllWhitespace(pre) && AllWhitespace(post)
    ensures SubmitCode(pre + code + post) == SubmitCode(code)
  {
    var i, j := TrimBounds(code);
    var lead, core, trail := code[..i], code[i..j], code[j..];
    SliceThree(code, i, j);
    Regroup(pre, lead, core, trail, post, code);
    AllWhitespaceConcat(pre, lead);
    AllWhitespaceConcat(trail, post);
    TrimUnique(pre + lead, core, trail + post);
    assert Trim(pre + code + post) == core == Trim(code);
  }

  lemma SliceThree(code: string, i: nat, j: nat)
    requires i <= j <= |code|
    ensures code == code[..i] + code[i..j] + code[j..]
  {
  }

  lemma Regroup(pre: string, lead: string, core: string, trail: string, post: string, code: string)
    requires code == lead + core + trail
    ensures pre + code + post == (pre + lead) + core + (trail + post)
  {
  }

  lemma AllWhitespaceConcat(a: string, b: string)
    requires AllWhitespace(a) && AllWhitespace(b)
    ensures AllWhitespace(a + b)
  {
    forall k | 0 <= k < |a + b| ensures IsWhitespace((a + b)[k]) {
      if k < |a| { assert (a + b)[k] == a[k]; } else { assert (a + b)[k] == b[k - |a|]; }
    }
  }

  /** A pasted code that is not blank is sent exactly as it appears in the field. */
  lemma PastedCodeSentUnchanged(clipboard: string)
    ensures Pasted(clipboard) != "" ==> SubmitCode(Pasted(clipboard)) == Ok(JoinRequest(Pasted(clipboard)))
  {
  }

  /** The button is enabled exactly when no request is in flight and `handleSubmit` would accept the code. */
  lemma EnabledIffAccepted(loading: bool, inviteCode: string)
    ensures SubmitEnabled(loading, inviteCode) <==> !loading && SubmitCode(inviteCode).Ok?
  {
  }
}
