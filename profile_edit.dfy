/** The profile editor (frontend/src/pages/ProfileEdit.jsx): the form it
    fills from the signed-in user, the comma-separated skills field, and the
    submit sequence that uploads an avatar, saves the profile and stores the
    user the server returns. */
module ProfileEdit {
  import opened Wrappers
  import opened AuthStorage
  import Strings

  datatype Form = Form(name: string, college: string, year: string, skills: seq<string>, avatarUrl: string)

  /** The answer of `uploadFile`, `{ url, filename }`, either of which may
      be missing. */
  datatype UploadResult = UploadResult(url: Option<string>, filename: Option<string>)

  /** The form before any user is known. */
  const EmptyForm: Form := Form("", "", "", [], "")

  /** The form the effect builds from the user: missing fields become `""`
      and a `skills` that is not an array becomes `[]`. */
  function InitForm(user: StoredUser): (f: Form)
    ensures f.name == user.name.GetOr("") && f.college == user.college.GetOr("")
    ensures f.year == user.year.GetOr("") && f.avatarUrl == user.avatarUrl.GetOr("")
    ensures f.skills == user.skills.GetOr([])
  {
    Form(Strings.Or(user.name, ""), Strings.Or(user.college, ""), Strings.Or(user.year, ""),
         user.skills.GetOr([]), Strings.Or(user.avatarUrl, ""))
  }

  /** A skill as the parser leaves it. */
  predicate IsSkill(s: string) {
    s != "" && Strings.IsTrimmed(s) && ',' !in s
  }

  /** `.map((s) => s.trim()).filter(Boolean)`, on pieces free of commas. */
  function TrimNonEmpty(pieces: seq<string>): (r: seq<string>)
    requires forall j :: 0 <= j < |pieces| ==> ',' !in pieces[j]
    ensures |r| <= |pieces|
    ensures forall i :: 0 <= i < |r| ==> IsSkill(r[i])
  {
    if |pieces| == 0 then []
    else
      var t := Strings.Trim(pieces[0]);
      Strings.TrimKeepsOut(pieces[0], ',');
      var rest := TrimNonEmpty(pieces[1..]);
      if t == "" then rest else [t] + rest
  }

  /** The skills field's `onChange`: split on commas, trim, drop empties. */
  function ParseSkills(text: string): (r: seq<string>)
    ensures forall i :: 0 <= i < |r| ==> IsSkill(r[i])
  {
    TrimNonEmpty(Strings.Split(text, ','))
  }

  /** The skills field's value, `(form.skills || []).join(", ")`. */
  function FormatSkills(skills: seq<string>): (text: string)
    ensures |skills| == 0 ==> text == ""
    ensures |skills| == 1 ==> text == skills[0]
    ensures |skills| >= 2 ==> Strings.StartsWith(text, skills[0] + ", ")
  {
    Strings.Join(skills, ", ")
  }

  /** Parsing the displayed list gives the list back, whenever it holds
      only parsed skills; so the field survives being re-rendered. */
  lemma FormatThenParse(skills: seq<string>)
    requires forall i :: 0 <= i < |skills| ==> IsSkill(skills[i])
    ensures ParseSkills(FormatSkills(skills)) == skills
  {
    if |skills| == 0 {
      assert Strings.Split("", ',') == [""];
    } else {
      SplitFormatted(skills);
      ParsePadded(skills[1..]);
      KeepsSkill(skills[0], PadEach(skills[1..]));
      assert [skills[0]] + skills[1..] == skills;
    }
  }

  /** The displayed list splits on its commas into the first skill and the
      others, each behind the space of `", "`. */
  lemma SplitFormatted(skills: seq<string>)
    requires |skills| >= 1
    requires forall i :: 0 <= i < |skills| ==> IsSkill(skills[i])
    ensures Strings.Split(FormatSkills(skills), ',') == [skills[0]] + PadEach(skills[1..])
  {
    assert ", " == [','] + " ";
    assert "" + Strings.Join(skills, [','] + " ") == FormatSkills(skills);
    Strings.SplitJoin("", skills, ',', " ");
    assert "" + skills[0] == skills[0];
  }

  function PadEach(skills: seq<string>): seq<string> {
    Strings.PrefixEach(" ", skills)
  }

  /** A skill in front survives trimming as it is. */
  lemma KeepsSkill(skill: string, pieces: seq<string>)
    requires IsSkill(skill)
    requires forall j :: 0 <= j < |pieces| ==> ',' !in pieces[j]
    ensures TrimNonEmpty([skill] + pieces) == [skill] + TrimNonEmpty(pieces)
  {
    Strings.TrimmedIsFixed(skill);
    assert ([skill] + pieces)[1..] == pieces;
  }

  /** A skill behind a space comes out of trimming without it. */
  lemma KeepsPaddedSkill(skill: string, pieces: seq<string>)
    requires IsSkill(skill)
    requires forall j :: 0 <= j < |pieces| ==> ',' !in pieces[j]
    ensures ',' !in " " + skill
    ensures TrimNonEmpty([" " + skill] + pieces) == [skill] + TrimNonEmpty(pieces)
  {
    Strings.TrimAfterPadding(" ", skill);
    assert ([" " + skill] + pieces)[1..] == pieces;
  }

  /** The pieces after the first carry the space of `", "`, which trimming
      removes. */
  lemma {:induction false} ParsePadded(skills: seq<string>)
    requires forall i :: 0 <= i < |skills| ==> IsSkill(skills[i])
    ensures forall j :: 0 <= j < |skills| ==> ',' !in PadEach(skills)[j]
    ensures TrimNonEmpty(PadEach(skills)) == skills
    decreases |skills|
  {
    if |skills| > 0 {
      var rest := PadEach(skills[1..]);
      ParsePadded(skills[1..]);
      KeepsPaddedSkill(skills[0], rest);
      assert PadEach(skills) == [" " + skills[0]] + rest;
      assert [skills[0]] + skills[1..] == skills;
    }
  }

  /** Parsing is settled after one pass: what the field shows after an edit
      parses to the same list again. */
  lemma ParseIsStable(text: string)
    ensures ParseSkills(FormatSkills(ParseSkills(text))) == ParseSkills(text)
  {
    FormatThenParse(ParseSkills(text));
  }

  /** The avatar sent with the profile: the upload's `url`, else its
      `filename`, else the form's previous value. */
  function AvatarUrl(previous: string, upload: Option<UploadResult>): (r: string)
    ensures upload.None? ==> r == previous
    ensures upload.Some? && Strings.Truthy(upload.value.url) ==> r == upload.value.url.value
    ensures upload.Some? && !Strings.Truthy(upload.value.url) && Strings.Truthy(upload.value.filename) ==>
              r == upload.value.filename.value
    ensures upload.Some? && !Strings.Truthy(upload.value.url) && !Strings.Truthy(upload.value.filename) ==>
              r == previous
  {
    var current := Strings.Or(Some(previous), "");
    match upload
    case None => current
    case Some(data) => Strings.Or(data.url, Strings.Or(data.filename, current))
  }

  /** `submit`. With no user nothing happens. Otherwise the avatar, when one
      was chosen, is uploaded first (`upload` is its answer, `None` when it
      failed, which abandons the submit); then the form goes out with the
      chosen `avatarUrl` (`response` is the server's user, a document with
      `_id` and no `id`, or `None` when the request failed); the returned
      user is saved next to the stored token and becomes the session user. */
  method Submit(store: LocalStorage, user: Option<StoredUser>, form: Form, avatarChosen: bool,
                upload: Option<UploadResult>, response: Option<StoredUser>, encode: StoredUser -> string)
    returns (sent: Option<Form>, session: Option<StoredUser>)
    modifies store
    ensures user.None? || (avatarChosen && upload.None?) ==>
      sent.None? && session == user && store.items == old(store.items)
    ensures user.Some? && !(avatarChosen && upload.None?) ==>
      sent == Some(form.(avatarUrl := AvatarUrl(form.avatarUrl, if avatarChosen then upload else None)))
    ensures sent.Some? && response.None? ==> session == user && store.items == old(store.items)
    ensures sent.Some? && response.Some? ==>
      && session == response
      && store.items == Saved(old(store.items), old(store.GetItem(TokenKey)), encode(response.value))
  {
    session := user;
    sent := None;
    if user.None? {
      return;
    }
    var previous := Strings.Or(Some(form.avatarUrl), "");
    var chosen := None;
    if avatarChosen {
      if upload.None? {
        return;
      }
      chosen := upload;
    }
    sent := Some(form.(avatarUrl := AvatarUrl(previous, chosen)));
    if response.None? {
      return;
    }
    SaveAuth(store, store.GetItem(TokenKey), response.value, encode);
    session := response;
  }
}
