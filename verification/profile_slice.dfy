/**
 * The profile store (`store/slices/profile/profileSlice.ts`): the profile
 * record, the loading / error / success flags, and how each request's
 * pending, fulfilled and rejected steps change them. Server replies are
 * inputs.
 */
module ProfileSlice {
  import opened Wrappers
  import opened Strings

  /** The profile as the client keeps it. */
  datatype Profile = Profile(
    id: string,
    name: string,
    email: string,
    city: Option<string>,
    phone: Option<string>,
    phoneVerified: Option<bool>,
    phoneTokenAttempts: Option<int>,
    favorites: Option<seq<string>>,
    isVerified: Option<bool>,
    isEmailConfirmed: Option<bool>,
    isAdmin: Option<bool>)

  /** The profile as the server sends it: the id under `_id`, and possibly further fields. */
  datatype ProfileBody = ProfileBody(
    mongoId: string,
    name: string,
    email: string,
    city: Option<string>,
    phone: Option<string>,
    phoneVerified: Option<bool>,
    phoneTokenAttempts: Option<int>,
    favorites: Option<seq<string>>,
    isVerified: Option<bool>,
    isEmailConfirmed: Option<bool>,
    isAdmin: Option<bool>,
    otherFields: map<string, string>)

  /** `fetchUserProfile`'s mapping: `_id` becomes `id`, the listed fields are copied, anything else is dropped. */
  function MapProfile(b: ProfileBody): (p: Profile)
    ensures p.id == b.mongoId && p.name == b.name && p.email == b.email
    ensures p.city == b.city && p.phone == b.phone && p.phoneVerified == b.phoneVerified
    ensures p.phoneTokenAttempts == b.phoneTokenAttempts && p.favorites == b.favorites
    ensures p.isVerified == b.isVerified && p.isEmailConfirmed == b.isEmailConfirmed && p.isAdmin == b.isAdmin
  {
    Profile(b.mongoId, b.name, b.email, b.city, b.phone, b.phoneVerified, b.phoneTokenAttempts,
      b.favorites, b.isVerified, b.isEmailConfirmed, b.isAdmin)
  }

  /** The body the server would send for a profile, with no further fields. */
  function ProfileToBody(p: Profile): ProfileBody {
    ProfileBody(p.id, p.name, p.email, p.city, p.phone, p.phoneVerified, p.phoneTokenAttempts,
      p.favorites, p.isVerified, p.isEmailConfirmed, p.isAdmin, map[])
  }

  /** The mapping loses only the extra fields: it is inverted by `ProfileToBody` in both directions. */
  lemma MapProfileRoundTrip(b: ProfileBody, p: Profile)
    ensures ProfileToBody(MapProfile(b)) == b.(otherFields := map[])
    ensures MapProfile(ProfileToBody(p)) == p
  {
  }

  /** Two bodies that differ only in extra fields give the same profile. */
  lemma MapProfileIgnoresExtras(b: ProfileBody, extras: map<string, string>)
    ensures MapProfile(b.(otherFields := extras)) == MapProfile(b)
  {
  }

  datatype ProfileState = ProfileState(profile: Option<Profile>, loading: bool, error: Option<string>, success: bool)

  const InitialProfileState := ProfileState(None, false, None, false)

  /** The five requests of the store. */
  datatype Request = FetchProfile | UpdateProfile | ChangePassword | SendPhoneCode | VerifyPhone

  /** The message a request's thunk rejects with when the server gives none. */
  function ThunkFallback(k: Request): string {
    match k
    case FetchProfile => "Не вдалося завантажити профіль"
    case UpdateProfile => "Не вдалося оновити профіль"
    case ChangePassword => "Password change failed"
    case SendPhoneCode => "Не вдалося надіслати код"
    case VerifyPhone => "Невірний код підтвердження"
  }

  /** The message a rejected case stores when the rejection carries none (the password change has none). */
  function ReducerFallback(k: Request): string
    requires k != ChangePassword
  {
    if k == FetchProfile then "Помилка завантаження профілю"
    else if k == UpdateProfile then "Помилка оновлення профілю"
    else if k == SendPhoneCode then "Помилка надсилання коду"
    else "Помилка підтвердження телефону"
  }

  /** The value a failed request rejects with: the server's message, or the thunk's own text. */
  function RejectPayload(k: Request, serverMessage: Option<string>): (r: string)
    ensures r != ""
    ensures serverMessage.Some? && serverMessage.value != "" ==> r == serverMessage.value
  {
    if serverMessage.Some? && serverMessage.value != "" then serverMessage.value else ThunkFallback(k)
  }

  /** `resetProfileState`: clears the flags and the error, keeps the profile. */
  function ResetProfileState(s: ProfileState): (r: ProfileState)
    ensures r.profile == s.profile
    ensures !r.loading && r.error.None? && !r.success
  {
    ProfileState(s.profile, false, None, false)
  }

  /**
   * Every pending case: loading, no error. Updating the profile and changing
   * the password also clear the success flag; the profile is kept.
   */
  function Pending(s: ProfileState, k: Request): (r: ProfileState)
    ensures r.loading && r.error.None? && r.profile == s.profile
    ensures k == UpdateProfile || k == ChangePassword ==> !r.success
    ensures k != UpdateProfile && k != ChangePassword ==> r.success == s.success
  {
    var t := s.(loading := true, error := None);
    if k == UpdateProfile || k == ChangePassword then t.(success := false) else t
  }

  /**
   * Every rejected case: not loading, the profile and success flag kept.
   * The password change stores its rejection value as it is; the others
   * store its message, or their own text when it carries none.
   */
  function Rejected(s: ProfileState, k: Request, payload: Option<string>): (r: ProfileState)
    ensures !r.loading && r.profile == s.profile && r.success == s.success
    ensures k == ChangePassword ==> r.error == payload
    ensures k != ChangePassword ==> r.error.Some? && r.error.value != ""
    ensures k != ChangePassword && payload.Some? && payload.value != "" ==> r.error == payload
  {
    var message := if k == ChangePassword then payload else Some(OrElse(payload, ReducerFallback(k)));
    s.(loading := false, error := message)
  }

  /** `fetchUserProfile.fulfilled`: the fetched profile replaces the old one; the success flag is left alone. */
  function FetchFulfilled(s: ProfileState, body: ProfileBody): (r: ProfileState)
    ensures !r.loading && r.profile == Some(MapProfile(body))
    ensures r.error == s.error && r.success == s.success
  {
    s.(loading := false, profile := Some(MapProfile(body)))
  }

  /** `updateUserProfile.fulfilled`: the returned profile replaces the old one, and the update counts as a success. */
  function UpdateFulfilled(s: ProfileState, updated: Profile): (r: ProfileState)
    ensures !r.loading && r.success && r.profile == Some(updated) && r.error == s.error
  {
    s.(loading := false, profile := Some(updated), success := true)
  }

  /** `changePassword.fulfilled`: success, with the profile untouched. */
  function ChangePasswordFulfilled(s: ProfileState): (r: ProfileState)
    ensures !r.loading && r.success && r.profile == s.profile && r.error == s.error
  {
    s.(loading := false, success := true)
  }

  /** The phone requests' fulfilled cases only stop loading. */
  function PhoneFulfilled(s: ProfileState): (r: ProfileState)
    ensures !r.loading && r.profile == s.profile && r.error == s.error && r.success == s.success
  {
    s.(loading := false)
  }

  /**
   * A failed request leaves an error behind, whatever the server said: its
   * own message when given, else the thunk's text (so the store's own
   * fallback is never reached through a thunk rejection).
   */
  lemma FailedRequestLeavesError(s: ProfileState, k: Request, serverMessage: Option<string>)
    ensures var r := Rejected(Pending(s, k), k, Some(RejectPayload(k, serverMessage)));
      !r.loading && r.profile == s.profile
      && r.error == Some(RejectPayload(k, serverMessage)) && r.error.value != ""
  {
  }

  /** An update or password change that fails leaves the success flag off. */
  lemma FailedChangeIsNoSuccess(s: ProfileState, k: Request, payload: Option<string>)
    requires k == UpdateProfile || k == ChangePassword
    ensures !Rejected(Pending(s, k), k, payload).success
  {
  }

  /** Resetting after any step restores the initial flags but keeps what was loaded. */
  lemma ResetKeepsLoadedProfile(s: ProfileState, body: ProfileBody)
    ensures var r := ResetProfileState(FetchFulfilled(Pending(s, FetchProfile), body));
      r == InitialProfileState.(profile := Some(MapProfile(body)))
  {
  }
}
