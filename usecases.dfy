/**
 * The use cases of internal/domain/usecases/user_usecases.go: create, get (by
 * id and by e-mail), update, delete and list users. Each is a sequence of store
 * and hasher calls with early returns, every failure mapped to a fixed message.
 * The store is the `UserRepository` of the Repository module, the password
 * hasher a possibly-failing function, and the clock a `now` parameter.
 */
module UseCases {
  import opened Results
  import opened GoInt
  import opened Entities
  import opened Repository
  import opened Text

  /** `PasswordHasher.Hash`: the hash of a password, or `None` when hashing fails. */
  type Hasher = string -> Option<string>

  /** The use cases' own errors; an entity validation error is passed through unchanged. */
  datatype UseCaseError =
    | EmailCheckFailed | EmailAlreadyExists | Invalid(cause: EntityError) | HashFailed
    | CreateFailed | UserNotFound | EmailInUse | UpdateFailed | DeleteFailed
    | ListFailed | CountFailed

  /** The text each error carries. */
  function UseCaseMessage(e: UseCaseError): string {
    match e
    case EmailCheckFailed => "erreur lors de la v\U{E9}rification de l'email"
    case EmailAlreadyExists => "un utilisateur avec cet email existe d\U{E9}j\U{E0}"
    case Invalid(cause) => EntityMessage(cause)
    case HashFailed => "erreur lors du traitement du mot de passe"
    case CreateFailed => "erreur lors de la cr\U{E9}ation de l'utilisateur"
    case UserNotFound => "utilisateur non trouv\U{E9}"
    case EmailInUse => "cet email est d\U{E9}j\U{E0} utilis\U{E9}"
    case UpdateFailed => "erreur lors de la mise \U{E0} jour"
    case DeleteFailed => "erreur lors de la suppression"
    case ListFailed => "erreur lors de la r\U{E9}cup\U{E9}ration des utilisateurs"
    case CountFailed => "erreur lors du comptage des utilisateurs"
  }

  // ---------------------------------------------------------------------------
  // Requests and responses
  // ---------------------------------------------------------------------------

  datatype CreateUserRequest = CreateUserRequest(email: string, name: string, password: string)

  /** What a created user is reported as: no password. */
  datatype CreateUserResponse = CreateUserResponse(id: int, email: string, name: string, created: Time)

  datatype GetUserResponse =
    GetUserResponse(id: int, email: string, name: string, created: Time, updated: Time)

  datatype UpdateUserRequest = UpdateUserRequest(id: int, email: string, name: string)

  datatype UpdateUserResponse = UpdateUserResponse(id: int, email: string, name: string, updated: Time)

  /** Go `int` fields, so 64-bit. */
  datatype ListUsersRequest = ListUsersRequest(page: Int64, pageSize: Int64)

  datatype ListUsersResponse = ListUsersResponse(
    users: seq<GetUserResponse>, total: int, page: Int64, pageSize: Int64, totalPages: Int64)

  /** The `GetUserResponse` built from a user's fields. */
  function GetResponse(d: UserData): GetUserResponse {
    GetUserResponse(d.id, d.email, d.name, d.created, d.updated)
  }

  /** The response never depends on the password: records differing only there read the same. */
  lemma ResponseHidesPassword(d: UserData, password: string)
    ensures GetResponse(d.(password := password)) == GetResponse(d)
    ensures GetResponse(d).id == d.id && GetResponse(d).email == d.email && GetResponse(d).name == d.name
  {
  }

  // ---------------------------------------------------------------------------
  // Create
  // ---------------------------------------------------------------------------


  /**
   * `CreateUserUseCase.Execute`: the exact request e-mail must not be taken;
   * then the user is registered. Every failure leaves the store as it was.
   */
  method CreateUser(repo: UserRepository, req: CreateUserRequest, hash: Hasher, now: Time)
    returns (r: Result<CreateUserResponse, UseCaseError>)
    requires repo.Valid()
    modifies repo
    ensures repo.Valid() && repo.failing == old(repo.failing)
    ensures r.Err? ==> unchanged(repo)
    ensures IsEmailTakenOp in repo.failing ==> r == Err(EmailCheckFailed)
    ensures IsEmailTakenOp !in repo.failing && old(repo.EmailTaken(req.email)) ==>
              r == Err(EmailAlreadyExists)
    ensures IsEmailTakenOp !in repo.failing && !old(repo.EmailTaken(req.email)) ==>
              Registered(old(repo.users), old(repo.order), old(repo.nextId), repo, req, hash, now, r)
  {
    var taken := repo.IsEmailTaken(req.email);
    if taken.Err? {
      return Err(EmailCheckFailed);
    }
    if taken.value {
      return Err(EmailAlreadyExists);
    }
    r := RegisterUser(repo, req, hash, now);
  }

  /**
   * What registering a request does, from a store that held `users`, `order`
   * and `nextId`: a validation error is returned unchanged, then a hashing
   * failure and a failing store each give their message; on success the built
   * user is stored under the next id with the hash in place of its password,
   * and the response reports its id, e-mail, name and creation time.
   */
  ghost predicate Registered(users: map<int, UserData>, order: seq<int>, nextId: int,
                             repo: UserRepository, req: CreateUserRequest, hash: Hasher, now: Time,
                             r: Result<CreateUserResponse, UseCaseError>)
    reads repo
  {
    var built := NewUserRecord(req.email, req.name, req.password, now);
    && (built.Err? ==> r == Err(Invalid(built.error)))
    && (built.Ok? && hash(req.password).None? ==> r == Err(HashFailed))
    && (built.Ok? && hash(req.password).Some? && CreateOp in repo.failing ==> r == Err(CreateFailed))
    && (built.Ok? && hash(req.password).Some? && CreateOp !in repo.failing ==>
          && r == Ok(CreateUserResponse(nextId, built.value.email, built.value.name, now))
          && repo.users == users[nextId := built.value.(id := nextId, password := hash(req.password).value)]
          && repo.order == order + [nextId] && repo.nextId == nextId + 1)
  }

  /** Steps 2 to 4 of `CreateUserUseCase.Execute`: build and validate the user, hash its password, save it. */
  method RegisterUser(repo: UserRepository, req: CreateUserRequest, hash: Hasher, now: Time)
    returns (r: Result<CreateUserResponse, UseCaseError>)
    requires repo.Valid()
    modifies repo
    ensures repo.Valid() && repo.failing == old(repo.failing)
    ensures r.Err? ==> unchanged(repo)
    ensures Registered(old(repo.users), old(repo.order), old(repo.nextId), repo, req, hash, now, r)
    ensures r.Ok? ==> r.value.id !in old(repo.users) && r.value.id in repo.users
  {
    ghost var built := NewUserRecord(req.email, req.name, req.password, now);
    var user := NewUser(req.email, req.name, req.password, now);
    if user.Err? {
      return Err(Invalid(user.error));
    }
    assert user.value.Data() == built.value;
    var hashed := hash(user.value.password);
    if hashed.None? {
      return Err(HashFailed);
    }
    user.value.password := hashed.value;
    assert user.value.Data() == built.value.(password := hash(req.password).value);
    var created := repo.Create(user.value);
    if created.Err? {
      return Err(CreateFailed);
    }
    assert created.value.Data() == built.value.(id := old(repo.nextId), password := hash(req.password).value);
    r := Ok(CreateUserResponse(created.value.id, created.value.email, created.value.name,
                               created.value.created));
  }

  // ---------------------------------------------------------------------------
  // Get
  // ---------------------------------------------------------------------------

  /** `GetUserUseCase.ExecuteByID`: the stored user's public fields, or "not found" for any store error. */
  method GetUserByID(repo: UserRepository, id: int) returns (r: Result<GetUserResponse, UseCaseError>)
    requires repo.Valid()
    ensures r.Ok? <==> GetByIdOp !in repo.failing && id in repo.users
    ensures r.Err? ==> r.error == UserNotFound
    ensures r.Ok? ==> r.value == GetResponse(repo.users[id]) && r.value.id == id
  {
    var user := repo.GetById(id);
    if user.Err? {
      return Err(UserNotFound);
    }
    r := Ok(GetResponse(user.value.Data()));
  }

  /**
   * `GetUserUseCase.ExecuteByEmail`: the public fields of a stored user whose
   * address is exactly `email` (the store picks the lowest id), or "not found".
   */
  method GetUserByEmail(repo: UserRepository, email: string)
    returns (r: Result<GetUserResponse, UseCaseError>)
    requires repo.Valid()
    ensures r.Ok? <==> GetByEmailOp !in repo.failing && repo.EmailTaken(email)
    ensures r.Err? ==> r.error == UserNotFound
    ensures r.Ok? ==> r.value.email == email && r.value.id in repo.users
                      && r.value == GetResponse(repo.users[r.value.id])
  {
    var user := repo.GetByEmail(email);
    if user.Err? {
      return Err(UserNotFound);
    }
    r := Ok(GetResponse(user.value.Data()));
  }

  // ---------------------------------------------------------------------------
  // Update
  // ---------------------------------------------------------------------------

  /**
   * `UpdateUserUseCase.Execute`: loads the user; when its stored e-mail differs
   * from the exact request e-mail, that request e-mail must not be taken; then
   * the profile is updated and saved. Every failure leaves the store as it was.
   */
  method UpdateUser(repo: UserRepository, req: UpdateUserRequest, now: Time)
    returns (r: Result<UpdateUserResponse, UseCaseError>)
    requires repo.Valid()
    modifies repo
    ensures repo.Valid() && repo.failing == old(repo.failing)
    ensures repo.order == old(repo.order) && repo.nextId == old(repo.nextId)
    ensures r.Err? ==> unchanged(repo)
    ensures GetByIdOp in repo.failing || req.id !in old(repo.users) ==> r == Err(UserNotFound)
    ensures GetByIdOp !in repo.failing && req.id in old(repo.users) ==>
              var checked := old(repo.users)[req.id].email != req.email;
              && (checked && IsEmailTakenOp in repo.failing ==> r == Err(EmailCheckFailed))
              && (checked && IsEmailTakenOp !in repo.failing && old(repo.EmailTaken(req.email)) ==>
                    r == Err(EmailInUse))
              && (!checked || (IsEmailTakenOp !in repo.failing && !old(repo.EmailTaken(req.email))) ==>
                    ProfileSaved(old(repo.users), repo, req, now, r))
  {
    var loaded := repo.GetById(req.id);
    if loaded.Err? {
      return Err(UserNotFound);
    }
    var user := loaded.value;
    if user.email != req.email {
      var taken := repo.IsEmailTaken(req.email);
      if taken.Err? {
        return Err(EmailCheckFailed);
      }
      if taken.value {
        return Err(EmailInUse);
      }
    }
    r := SaveProfile(repo, user, req, now);
  }

  /**
   * What updating and saving a profile does, from a store that held `users`:
   * a validation error is returned unchanged and a failing store gives its
   * message; on success the user's record holds the trimmed name, the
   * normalised e-mail and the new time, and the response reports them.
   */
  ghost predicate ProfileSaved(users: map<int, UserData>, repo: UserRepository, req: UpdateUserRequest,
                               now: Time, r: Result<UpdateUserResponse, UseCaseError>)
    reads repo
  {
    && req.id in users
    && var v := ValidateProfile(req.name, req.email);
       var saved := users[req.id].(name := TrimSpace(req.name), email := NormalizeEmail(req.email),
                                   updated := now);
       && (v.Fail? ==> r == Err(Invalid(v.error)))
       && (v.Pass? && UpdateOp in repo.failing ==> r == Err(UpdateFailed))
       && (v.Pass? && UpdateOp !in repo.failing ==>
             && r == Ok(UpdateUserResponse(req.id, saved.email, saved.name, now))
             && repo.users == users[req.id := saved])
  }

  /**
   * Steps 3 and 4 of `UpdateUserUseCase.Execute`, on the loaded copy `user`:
   * the profile update, then the save; the response is read from the local
   * copy, not from what the store returns.
   */
  method SaveProfile(repo: UserRepository, user: User, req: UpdateUserRequest, now: Time)
    returns (r: Result<UpdateUserResponse, UseCaseError>)
    requires repo.Valid() && req.id in repo.users && user.Data() == repo.users[req.id]
    modifies repo, user
    ensures repo.Valid() && repo.failing == old(repo.failing)
    ensures repo.order == old(repo.order) && repo.nextId == old(repo.nextId)
    ensures r.Err? ==> unchanged(repo)
    ensures ProfileSaved(old(repo.users), repo, req, now, r)
    ensures r.Ok? ==> && user.name == TrimSpace(req.name) && user.email == NormalizeEmail(req.email)
                      && user.updated == now
                      && r.value == UpdateUserResponse(user.id, user.email, user.name, user.updated)
  {
    var v := user.UpdateUserProfile(req.name, req.email, now);
    if v.Fail? {
      return Err(Invalid(v.error));
    }
    var saved := repo.Update(user);
    if saved.Err? {
      return Err(UpdateFailed);
    }
    r := Ok(UpdateUserResponse(user.id, user.email, user.name, user.updated));
  }

  // ---------------------------------------------------------------------------
  // Delete
  // ---------------------------------------------------------------------------

  /** `DeleteUserUseCase.Execute`: the user must load, then it is deleted. */
  method DeleteUser(repo: UserRepository, id: int) returns (r: Outcome<UseCaseError>)
    requires repo.Valid()
    modifies repo
    ensures repo.Valid() && repo.failing == old(repo.failing) && repo.nextId == old(repo.nextId)
    ensures r.Fail? ==> unchanged(repo)
    ensures GetByIdOp in repo.failing || id !in old(repo.users) ==> r == Fail(UserNotFound)
    ensures GetByIdOp !in repo.failing && id in old(repo.users) && DeleteByIdOp in repo.failing ==>
              r == Fail(DeleteFailed)
    ensures r.Pass? <==> GetByIdOp !in repo.failing && id in old(repo.users) && DeleteByIdOp !in repo.failing
    ensures r.Pass? ==> repo.users == old(repo.users) - {id}
  {
    var loaded := repo.GetById(id);
    if loaded.Err? {
      return Fail(UserNotFound);
    }
    var deleted := repo.DeleteById(id);
    if deleted.Fail? {
      return Fail(DeleteFailed);
    }
    r := Pass;
  }

  // ---------------------------------------------------------------------------
  // List
  // ---------------------------------------------------------------------------

  /** The page number after defaulting: 0 means the first page, anything else is kept. */
  function EffectivePage(page: Int64): (p: Int64)
    ensures p != 0
    ensures page == 0 ==> p == 1
    ensures page != 0 ==> p == page
  {
    if page == 0 then 1 else page
  }

  /** The page size after defaulting: 0 means 10, anything else (negatives too) is kept. */
  function EffectivePageSize(size: Int64): (s: Int64)
    ensures s != 0
    ensures size == 0 ==> s == 10
    ensures size != 0 ==> s == size
  {
    if size == 0 then 10 else size
  }

  /** `(page - 1) * pageSize` in Go's 64-bit arithmetic. */
  function Offset(page: Int64, size: Int64): (o: Int64)
    ensures MinInt64 <= (page - 1) * size <= MaxInt64 ==> o == (page - 1) * size
  {
    Wrap((page - 1) * size)
  }

  /**
   * `(total + pageSize - 1) / pageSize` in Go's 64-bit arithmetic (wrapping
   * sum, truncating division). Without overflow it is the ceiling of
   * `total / size`: that many pages of `size` hold every record, and one
   * fewer does not.
   */
  function TotalPages(total: int, size: Int64): (r: Int64)
    requires size != 0
    ensures 0 <= total && 1 <= size && total + size - 1 <= MaxInt64 ==>
              0 <= r && r * size >= total && (r - 1) * size < total
  {
    CeilingDivision(total, size);
    Quo(Wrap(total + size - 1), size)
  }

  /**
   * `ListUsersUseCase.Execute`: defaults the page and the page size, asks the
   * store for that page and for the count, and reports one `GetUserResponse`
   * per listed user, in the store's order, with the page count.
   */
  method ListUsers(repo: UserRepository, req: ListUsersRequest)
    returns (r: Result<ListUsersResponse, UseCaseError>)
    requires repo.Valid()
    ensures ListOp in repo.failing ==> r == Err(ListFailed)
    ensures ListOp !in repo.failing && CountOp in repo.failing ==> r == Err(CountFailed)
    ensures ListOp !in repo.failing && CountOp !in repo.failing ==>
              var page, size := EffectivePage(req.page), EffectivePageSize(req.pageSize);
              var listed := repo.Page(size, Offset(page, size));
              && r.Ok?
              && |r.value.users| == |listed|
              && (forall j :: 0 <= j < |listed| ==> r.value.users[j] == GetResponse(listed[j]))
              && r.value.total == |repo.users|
              && r.value.page == page && r.value.pageSize == size
              && r.value.totalPages == TotalPages(|repo.users|, size)
  {
    var page, size := EffectivePage(req.page), EffectivePageSize(req.pageSize);
    var offset := Offset(page, size);
    var users := repo.List(size, offset);
    if users.Err? {
      return Err(ListFailed);
    }
    var total := repo.Count();
    if total.Err? {
      return Err(CountFailed);
    }
    var responses: seq<GetUserResponse> := [];
    var i := 0;
    while i < |users.value|
      invariant 0 <= i <= |users.value|
      invariant |responses| == i
      invariant forall j :: 0 <= j < i ==> responses[j] == GetResponse(users.value[j].Data())
    {
      responses := responses + [GetResponse(users.value[i].Data())];
      i := i + 1;
    }
    r := Ok(ListUsersResponse(responses, total.value, page, size, TotalPages(total.value, size)));
  }

  // ---------------------------------------------------------------------------
  // Pagination properties
  // ---------------------------------------------------------------------------

  /** The first page starts at the first record. */
  lemma FirstPageOffset(size: Int64)
    ensures Offset(1, size) == 0
  {
  }

  /** Rounding `total / size` up by adding `size - 1` first. */
  lemma CeilingDivision(total: int, size: int)
    ensures 0 <= total && 1 <= size ==>
              var q := (total + size - 1) / size;
              0 <= q && q * size >= total && (q - 1) * size < total
  {
    if 0 <= total && 1 <= size {
      var n := total + size - 1;
      DivModParts(n, size);
      MulPredecessor(n / size, size);
    }
  }

  /** `n` splits as `(n / d) * d` plus a remainder below `d`. */
  lemma DivModParts(n: nat, d: int)
    requires 1 <= d
    ensures 0 <= n / d
    ensures (n / d) * d <= n < (n / d) * d + d
  {
  }

  lemma MulPredecessor(q: int, d: int)
    ensures (q - 1) * d == q * d - d
  {
  }

  /**
   * Without overflow, each of the pages `1..TotalPages` starts inside the
   * stored records, and the page after the last starts past them.
   */
  lemma PagesCoverRecords(total: int, size: Int64, page: Int64)
    requires 0 <= total && 1 <= size && total + size - 1 <= MaxInt64
    requires 1 <= page && page * size <= MaxInt64
    ensures page <= TotalPages(total, size) ==> 0 <= Offset(page, size) < total
    ensures page > TotalPages(total, size) ==> Offset(page, size) >= total
  {
    var q := TotalPages(total, size);
    MulMonotone(page - 1, size);
    if page <= q {
      MulMonotone(q - 1 - (page - 1), size);
      MulPredecessor(q - 1 - (page - 1) + (page - 1) + 1, size);
      assert (page - 1) * size <= (q - 1) * size by {
        MulDistance(q - 1, page - 1, size);
      }
    } else {
      MulDistance(page - 1, q, size);
      MulMonotone(page - 1 - q, size);
    }
  }

  lemma MulMonotone(a: int, b: int)
    requires 0 <= a && 0 <= b
    ensures 0 <= a * b
  {
  }

  lemma MulDistance(a: int, c: int, b: int)
    ensures a * b - c * b == (a - c) * b
  {
  }

  /**
   * The page size is not bounded by the use case, so the count can overflow:
   * two users listed with the largest page size report -1 pages.
   */
  lemma TotalPagesWrapsForHugePageSize()
    ensures TotalPages(2, MaxInt64) == -1
  {
    assert Wrap(2 + MaxInt64 - 1) == MinInt64;
    QuoTruncates(MinInt64, MaxInt64);
    assert Abs(MinInt64) / Abs(MaxInt64) == 1;
  }

  // ---------------------------------------------------------------------------
  // The e-mail checks against stored addresses
  // ---------------------------------------------------------------------------

  /**
   * As written, `CreateUser` checks the raw request address but stores its
   * normalised form, so a request that differs from a stored address only in
   * case or surrounding space passes the check and adds a second user with
   * the same address.
   */
  method CreateUserAdmitsDuplicate(repo: UserRepository, req: CreateUserRequest, hash: Hasher, now: Time)
    returns (r: Result<CreateUserResponse, UseCaseError>)
    requires repo.Valid() && repo.failing == {}
    requires !repo.EmailTaken(req.email) && repo.EmailTaken(NormalizeEmail(req.email))
    requires NewUserRecord(req.email, req.name, req.password, now).Ok? && hash(req.password).Some?
    modifies repo
    ensures r.Ok? && !repo.EmailsUnique()
  {
    ghost var other :| other in repo.users && repo.users[other].email == NormalizeEmail(req.email);
    r := CreateUser(repo, req, hash, now);
    assert repo.users[r.value.id].email == repo.users[other].email;
  }

  /** Such a request exists: "A@X.com" passes the check against a stored "a@x.com" and is stored as it. */
  lemma CaseVariantPassesCreateCheck()
    ensures var users := map[1 := UserData(1, "a@x.com", "Ann", "h", 0, 0)];
            var built := NewUserRecord("A@X.com", "Ann", "secret1", 0);
            && (forall id :: id in users ==> users[id].email != "A@X.com")
            && built.Ok? && built.value.email == users[1].email
  {
    var users := map[1 := UserData(1, "a@x.com", "Ann", "h", 0, 0)];
    assert users[1].email[0] != "A@X.com"[0];
    SampleEmailAccepted();
    SampleEmailNormalized();
    SampleNameAccepted();
    SamplePasswordAccepted();
    var built := NewUserRecord("A@X.com", "Ann", "secret1", 0);
    assert built.Ok?;
  }

  lemma SampleEmailAccepted()
    ensures ValidateEmail("A@X.com").Pass?
  {
    TrimSpaceOfTrimmed("A@X.com");
    AsciiByteLen("A@X.com");
  }

  lemma SampleEmailNormalized()
    ensures NormalizeEmail("A@X.com") == "a@x.com"
  {
    TrimSpaceOfTrimmed("A@X.com");
    assert ToLower("A@X.com") == "a@x.com";
  }

  lemma SamplePasswordAccepted()
    ensures ValidatePassword("secret1").Pass?
  {
    AsciiByteLen("secret1");
  }

  lemma SampleNameAccepted()
    ensures ValidateName("Ann").Pass?
  {
    var t := "Ann";
    assert IsTrimmed(t);
    TrimSpaceOfTrimmed(t);
    AsciiByteLen(t);
    assert forall i :: 0 <= i < |t| ==> IsNameRune(t[i]);
    assert NameAcceptable(t);
  }

  /**
   * `CreateUserUseCase.Execute` as evidently intended: the check looks for the
   * address in the normalised form the user would be stored under, so a
   * store without duplicate addresses keeps none.
   */
  method CreateUserNormalized(repo: UserRepository, req: CreateUserRequest, hash: Hasher, now: Time)
    returns (r: Result<CreateUserResponse, UseCaseError>)
    requires repo.Valid()
    modifies repo
    ensures repo.Valid() && repo.failing == old(repo.failing)
    ensures r.Err? ==> unchanged(repo)
    ensures IsEmailTakenOp in repo.failing ==> r == Err(EmailCheckFailed)
    ensures IsEmailTakenOp !in repo.failing && old(repo.EmailTaken(NormalizeEmail(req.email))) ==>
              r == Err(EmailAlreadyExists)
    ensures IsEmailTakenOp !in repo.failing && !old(repo.EmailTaken(NormalizeEmail(req.email))) ==>
              Registered(old(repo.users), old(repo.order), old(repo.nextId), repo, req, hash, now, r)
    ensures old(repo.EmailsUnique()) ==> repo.EmailsUnique()
  {
    var taken := repo.IsEmailTaken(NormalizeEmail(req.email));
    if taken.Err? {
      return Err(EmailCheckFailed);
    }
    if taken.value {
      return Err(EmailAlreadyExists);
    }
    ghost var before := repo.users;
    r := RegisterUser(repo, req, hash, now);
    if r.Ok? && UniqueEmails(before) {
      AddKeepsUniqueEmails(before, r.value.id, repo.users[r.value.id]);
    }
  }

  /**
   * As written, `UpdateUser` compares the stored (normalised) address with the
   * raw request address and checks the raw one, so a request naming another
   * user's address in a different case passes and both users end up with it.
   */
  method UpdateUserAdmitsDuplicate(repo: UserRepository, req: UpdateUserRequest, now: Time, other: int)
    returns (r: Result<UpdateUserResponse, UseCaseError>)
    requires repo.Valid() && repo.failing == {}
    requires req.id in repo.users && other in repo.users && other != req.id
    requires repo.users[other].email == NormalizeEmail(req.email) && !repo.EmailTaken(req.email)
    requires ValidateProfile(req.name, req.email).Pass?
    modifies repo
    ensures r.Ok? && !repo.EmailsUnique()
  {
    r := UpdateUser(repo, req, now);
    assert repo.users[req.id].email == repo.users[other].email;
  }

  /**
   * `UpdateUserUseCase.Execute` as evidently intended: the stored address is
   * compared with, and the check made for, the normalised request address,
   * so a store without duplicate addresses keeps none.
   */
  method UpdateUserNormalized(repo: UserRepository, req: UpdateUserRequest, now: Time)
    returns (r: Result<UpdateUserResponse, UseCaseError>)
    requires repo.Valid()
    modifies repo
    ensures repo.Valid() && repo.failing == old(repo.failing)
    ensures repo.order == old(repo.order) && repo.nextId == old(repo.nextId)
    ensures r.Err? ==> unchanged(repo)
    ensures GetByIdOp in repo.failing || req.id !in old(repo.users) ==> r == Err(UserNotFound)
    ensures GetByIdOp !in repo.failing && req.id in old(repo.users) ==>
              var wanted := NormalizeEmail(req.email);
              var checked := old(repo.users)[req.id].email != wanted;
              && (checked && IsEmailTakenOp in repo.failing ==> r == Err(EmailCheckFailed))
              && (checked && IsEmailTakenOp !in repo.failing && old(repo.EmailTaken(wanted)) ==>
                    r == Err(EmailInUse))
              && (!checked || (IsEmailTakenOp !in repo.failing && !old(repo.EmailTaken(wanted))) ==>
                    ProfileSaved(old(repo.users), repo, req, now, r))
    ensures old(repo.EmailsUnique()) ==> repo.EmailsUnique()
  {
    var loaded := repo.GetById(req.id);
    if loaded.Err? {
      return Err(UserNotFound);
    }
    var user := loaded.value;
    var wanted := NormalizeEmail(req.email);
    if user.email != wanted {
      var taken := repo.IsEmailTaken(wanted);
      if taken.Err? {
        return Err(EmailCheckFailed);
      }
      if taken.value {
        return Err(EmailInUse);
      }
    }
    ghost var before := repo.users;
    r := SaveProfile(repo, user, req, now);
    if r.Ok? && UniqueEmails(before) {
      ReplaceKeepsUniqueEmails(before, req.id, repo.users[req.id]);
    }
  }
}
