/**
  The "change my info" modal (`src/component/layout/_components/modal/change-my-info.tsx`):
  how the user record fills the form, and how the form becomes the update request. An
  empty form field means "no value": the request leaves it out, and a missing value of
  the user shows as an empty field.
*/
module Profile {
  import opened Wrappers
  import opened Util

  datatype Social = Social(github: Option<string>, instagram: Option<string>, blog: Option<string>)

  datatype User = User(avatar: Option<string>, description: Option<string>, social: Option<Social>)

  /** The five text fields of the form. */
  datatype InfoForm = InfoForm(avatar: string, description: string, github: string, instagram: string, blog: string)

  /** The body of `updateMyInfo`; `None` is a property left `undefined`. */
  datatype UpdateRequest = UpdateRequest(
    avatar: Option<string>, description: Option<string>,
    github: Option<string>, instagram: Option<string>, blog: Option<string>)

  /** `defaultValues`: every field empty. */
  function DefaultForm(): (f: InfoForm)
    ensures f.avatar == f.description == f.github == f.instagram == f.blog == ""
  {
    InfoForm("", "", "", "", "")
  }

  /** `value || ''` on an optional string. */
  function OrEmpty(value: Option<string>): (s: string)
    ensures s == "" <==> value.None? || value == Some("")
    ensures value.Some? ==> s == value.value
  {
    value.GetOr("")
  }

  /** `value || undefined` on a string. */
  function OrAbsent(s: string): (value: Option<string>)
    ensures value.None? <==> s == ""
    ensures value.Some? ==> value.value == s
  {
    if s == "" then None else Some(s)
  }

  /** `user?.social?.x`, for each of the three social fields. */
  function SocialOf(user: Option<User>): Social {
    if user.Some? && user.value.social.Some? then user.value.social.value else Social(None, None, None)
  }

  /** `form.reset({...})` when the user changes: each field from the user record, the three
      social ones from `user.social`, and `''` where the user has none. */
  function ResetForm(user: Option<User>): (f: InfoForm)
    ensures user.None? ==> f == DefaultForm()
    ensures user.Some? ==> f.avatar == OrEmpty(user.value.avatar) && f.description == OrEmpty(user.value.description)
    ensures f.github == OrEmpty(SocialOf(user).github) && f.instagram == OrEmpty(SocialOf(user).instagram)
    ensures f.blog == OrEmpty(SocialOf(user).blog)
  {
    var social := SocialOf(user);
    InfoForm(
      if user.Some? then OrEmpty(user.value.avatar) else "",
      if user.Some? then OrEmpty(user.value.description) else "",
      OrEmpty(social.github), OrEmpty(social.instagram), OrEmpty(social.blog))
  }

  /** `onSubmit`: each empty field is left out, each other one sent as typed. */
  function Submit(f: InfoForm): (r: UpdateRequest)
    ensures r.avatar.None? <==> f.avatar == ""
    ensures r.description.None? <==> f.description == ""
    ensures r.github.None? <==> f.github == ""
    ensures r.instagram.None? <==> f.instagram == ""
    ensures r.blog.None? <==> f.blog == ""
    ensures r.avatar.Some? ==> r.avatar.value == f.avatar
    ensures r.description.Some? ==> r.description.value == f.description
    ensures r.github.Some? ==> r.github.value == f.github
    ensures r.instagram.Some? ==> r.instagram.value == f.instagram
    ensures r.blog.Some? ==> r.blog.value == f.blog
  {
    UpdateRequest(OrAbsent(f.avatar), OrAbsent(f.description), OrAbsent(f.github),
                  OrAbsent(f.instagram), OrAbsent(f.blog))
  }

  /** The user's five values, social ones flattened. */
  function UserFields(user: User): UpdateRequest {
    var social := SocialOf(Some(user));
    UpdateRequest(user.avatar, user.description, social.github, social.instagram, social.blog)
  }

  /** No value of the user is the empty string. */
  predicate NoEmptyValues(user: User) {
    var r := UserFields(user);
    r.avatar != Some("") && r.description != Some("") && r.github != Some("") &&
    r.instagram != Some("") && r.blog != Some("")
  }

  /** Opening the modal and submitting it untouched sends the user's own values back,
      provided none of them is the empty string (which would be sent as absent). */
  lemma SubmitAfterReset(user: User)
    requires NoEmptyValues(user)
    ensures Submit(ResetForm(Some(user))) == UserFields(user)
  {
    var f := ResetForm(Some(user));
    var r := Submit(f);
    var u := UserFields(user);
    assert r.avatar == u.avatar;
    assert r.description == u.description;
    assert r.github == u.github && r.instagram == u.instagram && r.blog == u.blog;
  }

  /** An empty string in the user record is the one value the round trip loses. */
  lemma EmptyValueIsDropped(user: User)
    requires user.avatar == Some("")
    ensures Submit(ResetForm(Some(user))).avatar == None
  {
  }

  /** The user the server would hold after storing a request as given. */
  function UserFromRequest(r: UpdateRequest): User {
    User(r.avatar, r.description, Some(Social(r.github, r.instagram, r.blog)))
  }

  /** The other direction: a form submitted and read back into the form is unchanged. */
  lemma ResetAfterSubmit(f: InfoForm)
    ensures ResetForm(Some(UserFromRequest(Submit(f)))) == f
  {
    var g := ResetForm(Some(UserFromRequest(Submit(f))));
    assert g.avatar == f.avatar && g.description == f.description;
    assert g.github == f.github && g.instagram == f.instagram && g.blog == f.blog;
  }

  /** The trash button exists only when the user has a non-empty avatar (`user?.avatar &&`). */
  function ShowsTrashButton(user: Option<User>): (shown: bool)
    ensures shown <==> user.Some? && OrEmpty(user.value.avatar) != ""
  {
    user.Some? && user.value.avatar.Some? && user.value.avatar.value != ""
  }

  /** A request the modal sends to the server. */
  datatype Request = UpdateMyInfo(body: UpdateRequest) | DeleteMyAvatar | UploadImage

  /** The modal's state: the user from the store, the form, whether an upload is running,
      and the requests sent so far, oldest first. */
  class InfoModal {
    var user: Option<User>
    var form: InfoForm
    var isUploading: bool
    var requests: seq<Request>

    /** Opening the modal: the form starts from the defaults and the reset effect fills it
        from the user at once. */
    constructor Open(user: Option<User>)
      ensures this.user == user && form == ResetForm(user)
      ensures !isUploading && requests == []
    {
      this.user := user;
      form := DefaultForm();
      isUploading := false;
      requests := [];
      new;
      UserChanged(user);
    }

    /** `setUser(user)`: the effect on `[user]` resets the form from the new record. */
    method UserChanged(u: Option<User>)
      modifies this`user, this`form
      ensures user == u && form == ResetForm(u)
    {
      user := u;
      form := ResetForm(u);
    }

    /** The trash button's click: ignored while an upload is running, otherwise the avatar
        deletion request is sent. The button is there only for a user with an avatar. */
    method TrashClick()
      requires ShowsTrashButton(user)
      modifies this`requests
      ensures isUploading ==> requests == old(requests)
      ensures !isUploading ==> requests == old(requests) + [DeleteMyAvatar]
    {
      if isUploading {
        return;
      }
      requests := requests + [DeleteMyAvatar];
    }

    /** The server's answer to the deletion: `setUser` with the returned record. */
    method AvatarDeleted(u: User)
      requires u.avatar.None? || u.avatar == Some("")
      modifies this`user, this`form
      ensures user == Some(u) && form.avatar == "" && !ShowsTrashButton(user)
    {
      UserChanged(Some(u));
    }

    /** A file chosen: the upload starts and the pre-signed address is requested. */
    method UploadStarted()
      modifies this`isUploading, this`requests
      ensures isUploading && requests == old(requests) + [UploadImage]
    {
      isUploading := true;
      requests := requests + [UploadImage];
    }

    /** The upload finished: the avatar field takes the pre-signed address with its query
        stripped, and the upload is over. */
    method UploadFinished(signedUrl: string)
      requires isUploading
      modifies this`form, this`isUploading
      ensures !isUploading && form == old(form).(avatar := StripQuery(signedUrl))
    {
      form := form.(avatar := StripQuery(signedUrl));
      isUploading := false;
    }

    /** The form submitted with valid values: the update request is sent. */
    method SubmitClick()
      modifies this`requests
      ensures requests == old(requests) + [UpdateMyInfo(Submit(form))]
    {
      requests := requests + [UpdateMyInfo(Submit(form))];
    }
  }
}
