/** Student accounts and profiles (backend/src/student/student.service.ts).

    The `user` and `studentProfile` tables are sequences whose position is
    the row id. The media store and the face service are not modelled: each
    call to them is an outcome the caller supplies (an upload either yields a
    URL or throws; a face registration either succeeds or throws). Password
    hashing is left out, so a user row holds no password hash. */
module Students {
  import opened Wrappers

  type UserId = nat
  type ProfileId = nat

  datatype Role = Admin | Student

  datatype User = User(id: UserId, email: string, role: Role)

  datatype StudentProfile = StudentProfile(
    id: ProfileId,
    userId: UserId,
    studentCode: string,
    fullName: string,
    phone: Option<string>,
    dateOfBirth: Option<string>,
    identityCard: Option<string>,
    trainingClassId: Option<string>,
    identityCardImage: Option<string>,
    avatarUrl: Option<string>,
    faceRegistered: bool)

  /** The fields of a create request (the password is left out). */
  datatype NewStudent = NewStudent(
    email: string,
    studentCode: string,
    fullName: string,
    phone: Option<string>,
    avatarBase64: Option<string>)

  /** The fields of an update request; each may be absent. */
  datatype StudentChanges = StudentChanges(
    fullName: Option<string>,
    phone: Option<string>,
    dateOfBirth: Option<string>,
    identityCard: Option<string>,
    trainingClassId: Option<string>,
    identityCardImage: Option<string>,
    avatarBase64: Option<string>)

  /** What an upload to the media store does: yield a URL or throw. */
  datatype Upload = Uploaded(url: string) | UploadFailed

  datatype StudentFailure =
    | EmailTaken        // ConflictException
    | StudentCodeTaken  // ConflictException
    | StudentNotFound   // NotFoundException
    | UploadError       // the media store's error, propagated

  predicate EmailInUse(users: seq<User>, email: string) {
    exists u :: u in users && u.email == email
  }

  predicate StudentCodeInUse(profiles: seq<StudentProfile>, code: string) {
    exists p :: p in profiles && p.studentCode == code
  }

  /** Email, student code and the owning user are unique keys. */
  ghost predicate UniqueKeys(users: seq<User>, profiles: seq<StudentProfile>) {
    && (forall i, j :: 0 <= i < j < |users| ==> users[i].email != users[j].email)
    && (forall i, j :: 0 <= i < j < |profiles| ==>
          profiles[i].studentCode != profiles[j].studentCode && profiles[i].userId != profiles[j].userId)
  }

  /** Rewriting a profile without touching its keys keeps the keys unique. */
  lemma UniqueKeysAfterRewrite(users: seq<User>, profiles: seq<StudentProfile>, i: nat, p: StudentProfile)
    requires UniqueKeys(users, profiles) && i < |profiles|
    requires p.studentCode == profiles[i].studentCode && p.userId == profiles[i].userId
    ensures UniqueKeys(users, profiles[i := p])
  {
  }

  /** The profile owned by user `userId`, if any (a lookup on a unique key). */
  function ProfileOfUser(profiles: seq<StudentProfile>, userId: UserId): (r: Option<StudentProfile>)
    ensures r.Some? ==> r.value in profiles && r.value.userId == userId
    ensures r.None? ==> forall p :: p in profiles ==> p.userId != userId
  {
    if profiles == [] then None
    else if profiles[0].userId == userId then Some(profiles[0])
    else ProfileOfUser(profiles[1..], userId)
  }

  /** `getStudentById`: NotFound exactly when no profile has the id. */
  function GetStudentById(profiles: seq<StudentProfile>, id: ProfileId): (r: Result<StudentProfile, StudentFailure>)
    ensures r.Failure? <==> forall p :: p in profiles ==> p.id != id
    ensures r.Failure? ==> r.error == StudentNotFound
    ensures r.Success? ==> r.value in profiles && r.value.id == id
  {
    if profiles == [] then Failure(StudentNotFound)
    else if profiles[0].id == id then Success(profiles[0])
    else GetStudentById(profiles[1..], id)
  }

  /** `getStudentByUserId`: NotFound exactly when no profile belongs to the user. */
  function GetStudentByUserId(profiles: seq<StudentProfile>, userId: UserId): (r: Result<StudentProfile, StudentFailure>)
    ensures r.Failure? <==> forall p :: p in profiles ==> p.userId != userId
    ensures r.Failure? ==> r.error == StudentNotFound
    ensures r.Success? ==> r.value in profiles && r.value.userId == userId
  {
    match ProfileOfUser(profiles, userId)
    case None => Failure(StudentNotFound)
    case Some(p) => Success(p)
  }

  /** `after` is `before` with exactly the supplied fields of `changes` written:
      uploaded images become their URLs, and a successful face registration
      sets the flag (a failed one leaves it as it was). */
  ghost predicate ChangesApplied(before: StudentProfile, after: StudentProfile, changes: StudentChanges,
                                 cardUpload: Upload, avatarUpload: Upload, faceRegistration: bool)
  {
    && after.id == before.id
    && after.userId == before.userId
    && after.studentCode == before.studentCode
    && after.fullName == (if Truthy(changes.fullName) then changes.fullName.value else before.fullName)
    && after.phone == (if Truthy(changes.phone) then changes.phone else before.phone)
    && after.dateOfBirth == (if Truthy(changes.dateOfBirth) then changes.dateOfBirth else before.dateOfBirth)
    && after.identityCard == (if Truthy(changes.identityCard) then changes.identityCard else before.identityCard)
    && after.trainingClassId == (if Truthy(changes.trainingClassId) then changes.trainingClassId else before.trainingClassId)
    && after.identityCardImage ==
         (if Truthy(changes.identityCardImage) && cardUpload.Uploaded? then Some(cardUpload.url) else before.identityCardImage)
    && after.avatarUrl ==
         (if Truthy(changes.avatarBase64) && avatarUpload.Uploaded? then Some(avatarUpload.url) else before.avatarUrl)
    && after.faceRegistered == (before.faceRegistered || (Truthy(changes.avatarBase64) && faceRegistration))
  }

  /** The field-by-field update data of `updateStudent` amounts to `ChangesApplied`. */
  lemma ChangesAppliedByFields(before: StudentProfile, after: StudentProfile, changes: StudentChanges,
                               cardUpload: Upload, avatarUpload: Upload, faceRegistration: bool)
    requires !UploadFails(changes, cardUpload, avatarUpload)
    requires after == before.(
      fullName := if Truthy(changes.fullName) then changes.fullName.value else before.fullName,
      phone := if Truthy(changes.phone) then changes.phone else before.phone,
      dateOfBirth := if Truthy(changes.dateOfBirth) then changes.dateOfBirth else before.dateOfBirth,
      identityCard := if Truthy(changes.identityCard) then changes.identityCard else before.identityCard,
      trainingClassId := if Truthy(changes.trainingClassId) then changes.trainingClassId else before.trainingClassId,
      identityCardImage :=
        if Truthy(changes.identityCardImage) then Some(cardUpload.url) else before.identityCardImage,
      avatarUrl := if Truthy(changes.avatarBase64) then Some(avatarUpload.url) else before.avatarUrl,
      faceRegistered := before.faceRegistered || (Truthy(changes.avatarBase64) && faceRegistration))
    ensures ChangesApplied(before, after, changes, cardUpload, avatarUpload, faceRegistration)
  {
  }

  /** An upload the update needs throws. */
  predicate UploadFails(changes: StudentChanges, cardUpload: Upload, avatarUpload: Upload) {
    || (Truthy(changes.identityCardImage) && cardUpload.UploadFailed?)
    || (Truthy(changes.avatarBase64) && avatarUpload.UploadFailed?)
  }

  class StudentService {
    var users: seq<User>
    var profiles: seq<StudentProfile>

    ghost predicate Valid()
      reads this
    {
      && (forall i :: 0 <= i < |users| ==> users[i].id == i)
      && (forall i :: 0 <= i < |profiles| ==> profiles[i].id == i && profiles[i].userId < |users|)
      && UniqueKeys(users, profiles)
    }

    constructor ()
      ensures Valid() && users == [] && profiles == []
    {
      users := [];
      profiles := [];
    }

    /** `createStudent`: the email is checked before the student code; on
        success one STUDENT user and one profile are added. An avatar, when
        supplied, is uploaded (a failed upload throws after the rows exist) and
        then registered with the face service, whose failure is swallowed. */
    method CreateStudent(input: NewStudent, avatarUpload: Upload, faceRegistration: bool)
      returns (r: Result<StudentProfile, StudentFailure>)
      requires Valid()
      modifies this
      ensures Valid()
      ensures EmailInUse(old(users), input.email) ==>
        r == Failure(EmailTaken) && users == old(users) && profiles == old(profiles)
      ensures !EmailInUse(old(users), input.email) && StudentCodeInUse(old(profiles), input.studentCode) ==>
        r == Failure(StudentCodeTaken) && users == old(users) && profiles == old(profiles)
      ensures !EmailInUse(old(users), input.email) && !StudentCodeInUse(old(profiles), input.studentCode) ==>
        && users == old(users) + [User(|old(users)|, input.email, Student)]
        && |profiles| == |old(profiles)| + 1
        && profiles[..|old(profiles)|] == old(profiles)
        && var p := profiles[|old(profiles)|];
           && p.id == |old(profiles)| && p.userId == |old(users)|
           && p.studentCode == input.studentCode && p.fullName == input.fullName && p.phone == input.phone
           && p.dateOfBirth == None && p.identityCard == None && p.trainingClassId == None
           && p.identityCardImage == None
           && (if !Truthy(input.avatarBase64) then
                 p.avatarUrl == None && !p.faceRegistered && r == Success(p)
               else if avatarUpload.UploadFailed? then
                 p.avatarUrl == None && !p.faceRegistered && r == Failure(UploadError)
               else
                 p.avatarUrl == Some(avatarUpload.url) && p.faceRegistered == faceRegistration && r == Success(p))
    {
      if EmailInUse(users, input.email) {
        return Failure(EmailTaken);
      }
      if StudentCodeInUse(profiles, input.studentCode) {
        return Failure(StudentCodeTaken);
      }
      var user := User(|users|, input.email, Student);
      var profile := StudentProfile(|profiles|, user.id, input.studentCode, input.fullName, input.phone,
                                    None, None, None, None, None, false);
      users := users + [user];
      profiles := profiles + [profile];
      if Truthy(input.avatarBase64) {
        match avatarUpload
        case UploadFailed =>
          return Failure(UploadError);
        case Uploaded(url) =>
          profile := profile.(avatarUrl := Some(url));
          profiles := profiles[profile.id := profile];
          if faceRegistration {
            profile := profile.(faceRegistered := true);
            profiles := profiles[profile.id := profile];
          }
      }
      r := Success(profile);
    }

    /** `updateStudent`: NotFound for an unknown id; otherwise writes only the
        supplied fields. Uploads happen before the write, so a failed upload
        leaves the profile unchanged. */
    method UpdateStudent(id: ProfileId, changes: StudentChanges, cardUpload: Upload, avatarUpload: Upload,
                         faceRegistration: bool)
      returns (r: Result<StudentProfile, StudentFailure>)
      requires Valid()
      modifies this
      ensures Valid() && users == old(users)
      ensures id >= |old(profiles)| ==> r == Failure(StudentNotFound) && profiles == old(profiles)
      ensures id < |old(profiles)| && UploadFails(changes, cardUpload, avatarUpload) ==>
        r == Failure(UploadError) && profiles == old(profiles)
      ensures id < |old(profiles)| && !UploadFails(changes, cardUpload, avatarUpload) ==>
        && r.Success?
        && profiles == old(profiles)[id := r.value]
        && ChangesApplied(old(profiles)[id], r.value, changes, cardUpload, avatarUpload, faceRegistration)
    {
      if id >= |profiles| {
        return Failure(StudentNotFound);
      }
      var before := profiles[id];
      // The update data, field by field: a supplied field replaces the stored one.
      var fullName := if Truthy(changes.fullName) then changes.fullName.value else before.fullName;
      var phone := if Truthy(changes.phone) then changes.phone else before.phone;
      var dateOfBirth := if Truthy(changes.dateOfBirth) then changes.dateOfBirth else before.dateOfBirth;
      var identityCard := if Truthy(changes.identityCard) then changes.identityCard else before.identityCard;
      var trainingClassId :=
        if Truthy(changes.trainingClassId) then changes.trainingClassId else before.trainingClassId;
      // Both uploads run before the profile is written, and either one
      // throwing aborts the update.
      if UploadFails(changes, cardUpload, avatarUpload) {
        return Failure(UploadError);
      }
      var identityCardImage :=
        if Truthy(changes.identityCardImage) then Some(cardUpload.url) else before.identityCardImage;
      var avatarUrl := if Truthy(changes.avatarBase64) then Some(avatarUpload.url) else before.avatarUrl;
      // A failed face registration is swallowed and leaves the flag alone.
      var faceRegistered := before.faceRegistered || (Truthy(changes.avatarBase64) && faceRegistration);
      var p := before.(fullName := fullName, phone := phone, dateOfBirth := dateOfBirth,
                       identityCard := identityCard, trainingClassId := trainingClassId,
                       identityCardImage := identityCardImage, avatarUrl := avatarUrl,
                       faceRegistered := faceRegistered);
      ChangesAppliedByFields(before, p, changes, cardUpload, avatarUpload, faceRegistration);
      UniqueKeysAfterRewrite(users, profiles, id, p);
      profiles := profiles[id := p];
      r := Success(p);
    }
  }
}
