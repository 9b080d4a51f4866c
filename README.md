# A verified model of a Go user-management core

This project models, in Dafny, the core of a small Go service that manages users
in the "clean architecture" style:

- **The user entity** (`internal/domain/entities/users.go`). A validating
  constructor `NewUser` normalises the e-mail address and trims the name. Two
  mutators, `UpdateUserProfile` and `ChangePassword`, validate first and change
  the user in place only on success. Three validators sit behind them: e-mail,
  name (length, an offensive-word pattern, a character class) and password.
  `isValidUser` checks all three.
- **The use cases** (`internal/domain/usecases/user_usecases.go`). Create, get
  by id or by e-mail, update, delete and list users. Each one is a sequence of
  store and hasher calls with early returns, and each failure has a fixed
  message. List also computes the page offset and the page count in Go's 64-bit
  arithmetic.
- **The repository demo** (`cmd/api/main.go`). A map from id to user pointer,
  read in two ways: `dangerousList` hands out the stored pointers, `safeList`
  hands out copies. It is written in two ways: `updateInPlace` writes into the
  stored object, `updateWithReplace` stores a new one. `MockUserRepository`
  combines the safe read with the in-place write.

The model's modules:

- `Results`: option and result types.
- `GoInt`: 64-bit wrap-around and Go's truncating `/`.
- `Text`: Go's `strings.TrimSpace` and `strings.ToLower`, and `len` as a UTF-8
  byte count.
- `Entities`: the user entity.
- `Repository`: the store behind the `UserRepository` interface.
- `UseCases`: the use cases.
- `ApiMain`: the repository demo.

The store interface (`internal/domain/repositories/user_repository.go:11-20`)
has no implementation in the repository. `Repository.UserRepository` is an
in-memory store that keeps to what the interface and the use cases need:

- records are stored by value;
- every read returns a fresh copy;
- ids come from a counter that never goes back;
- `isEmailTaken` compares addresses exactly;
- listing is in ascending id order;
- each operation named in the `failing` set stands for a backend that is down:
  it returns an error and changes nothing. This makes every error branch of
  the use cases reachable.

Users are `class`es whose fields the mutators update, as in Go. The stores are
classes whose methods reassign a `map` field. The validators and the pagination
arithmetic are functions, and loops are methods with invariants.

## Model

| member | source | states |
|---|---|---|
| Text.TrimSpace | internal/domain/entities/users.go:86 | the result has no leading or trailing white space and is no longer than the input |
| Text.TrimSpaceDropsSpaces | internal/domain/entities/users.go:86 | the trimmed text is a contiguous run of the input, and everything before and after that run is white space |
| Text.TrimSpaceIdempotent | internal/domain/entities/users.go:86 | trimming twice gives the same text as trimming once |
| Text.ToLower | internal/domain/entities/users.go:34 | lower-casing keeps the number of runes and leaves no ASCII capital |
| Text.ByteLen | internal/domain/entities/users.go:95 | Go's `len` on a string: between one and four bytes per rune |
| Text.ToLowerKeepsByteLen | internal/domain/entities/users.go:34 | the model's lower-casing, which covers only ASCII and Latin-1 capitals, keeps the UTF-8 byte length; Go's full case mapping does not (see Left out) |
| Text.ToLowerKeepsAt | internal/domain/entities/users.go:34 | lower-cased text contains `@` exactly when the original does |
| Entities.ValidateEmail | internal/domain/entities/users.go:85-100 | accepts exactly the addresses whose trimmed text contains `@` and is at most 255 bytes long |
| Entities.ValidateEmailErrors | internal/domain/entities/users.go:85-100 | the error is "empty" for blank text, "invalid" for trimmed text without `@`, and "too long" for trimmed text with `@` over 255 bytes, each exactly in that case |
| Entities.IsOffensive | internal/domain/entities/users.go:103 | the case-insensitive offensive-word pattern; text shorter than four runes never matches it |
| Entities.IsNameRune | internal/domain/entities/users.go:104 | the name character class admits only Latin-1 runes, and of the ASCII white space admits all but the vertical tab (RE2's `\s`) |
| Entities.ValidateName | internal/domain/entities/users.go:107-130 | accepts exactly the names whose trimmed text is 2 to 100 bytes long, contains no offensive word in any case, and uses only the allowed character class |
| Entities.ValidateNameErrors | internal/domain/entities/users.go:107-130 | each of the five errors is returned exactly when its check is the first to fail, in the source's order |
| Entities.ValidatePassword | internal/domain/entities/users.go:131-145 | accepts exactly the passwords of 6 to 128 bytes, untrimmed |
| Entities.ValidatePasswordErrors | internal/domain/entities/users.go:131-145 | "empty", "too short" and "too long" are each returned exactly in their own case |
| Entities.NewUserRecord | internal/domain/entities/users.go:32-39 | a built user has id 0, the trimmed and lower-cased e-mail, the trimmed name, the raw password, and the same creation and update time |
| Entities.NewUserRecordChecks | internal/domain/entities/users.go:19-30 | construction succeeds exactly when all three validators accept; otherwise it fails with the first rejecting validator's error, in the order e-mail, name, password |
| Entities.NormalizedEmailAcceptable | internal/domain/entities/users.go:34 | an accepted address is still accepted after normalisation |
| Entities.TrimmedNameAcceptable | internal/domain/entities/users.go:35 | an accepted name is still accepted after trimming |
| Entities.IsValidRecord | internal/domain/entities/users.go:79-83 | a record is valid exactly when its e-mail, name and password each pass their rules |
| Entities.User.IsValidUser | internal/domain/entities/users.go:79-83 | a user is valid exactly when its current e-mail, name and password each pass their rules |
| Entities.NewUserIsValid | internal/domain/entities/users.go:79-83 | every user that `NewUser` builds satisfies `isValidUser` |
| Entities.NewUser | internal/domain/entities/users.go:19-40 | returns a new object holding exactly the record `NewUserRecord` describes, or that record's error |
| Entities.ValidateProfile | internal/domain/entities/users.go:53-59 | passes exactly when both the name and the e-mail are accepted; a bad name is reported before a bad e-mail |
| Entities.User.UpdateUserProfile | internal/domain/entities/users.go:52-66 | on failure the user is untouched; on success the name is trimmed, the e-mail normalised and the update time set; id, password and creation time never change |
| Entities.ProfileUpdateKeepsValidity | internal/domain/entities/users.go:52-66 | with the model's ASCII and Latin-1 lower-casing: after a successful profile update, the user satisfies `isValidUser` exactly when its password already did; Go's full case mapping breaks this (see Left out) |
| Entities.User.ChangePassword | internal/domain/entities/users.go:68-77 | on failure the user is untouched; on success only the password and the update time change |
| Entities.PasswordChangeKeepsValidity | internal/domain/entities/users.go:68-77 | after a successful password change, the user satisfies `isValidUser` exactly when its e-mail and name already did |
| GoInt.Wrap | internal/domain/usecases/user_usecases.go:379 | an int64 result equals the exact one when that fits, and is congruent to it modulo 2^64 otherwise |
| GoInt.Quo | internal/domain/usecases/user_usecases.go:411 | for a non-negative dividend and a positive divisor, the result is the mathematical quotient |
| GoInt.QuoTruncates | internal/domain/usecases/user_usecases.go:411 | outside `MinInt64 / -1`, the quotient's magnitude is the magnitudes' quotient and its sign is the operands' combined sign: truncation toward zero |
| Repository.Window | internal/domain/repositories/user_repository.go:18 | a page lies within the stored records, holds at most `limit` of them, is empty past the end, is exactly `[offset, offset+limit)` when that fits, runs from `offset` to the end when the last page is cut short, and starts at 0 for a negative offset |
| Repository.UserRepository.Create | internal/domain/repositories/user_repository.go:12 | stores the user's fields under the next id, appends that id to the listing order, and returns a fresh copy of the stored record |
| Repository.UserRepository.GetById | internal/domain/repositories/user_repository.go:13 | returns a fresh copy of the stored record, or "not found" for an absent id |
| Repository.UserRepository.GetByEmail | internal/domain/repositories/user_repository.go:14 | finds a user exactly when some stored address equals the argument, and returns a fresh copy of the lowest-id such user |
| Repository.UserRepository.IsEmailTaken | internal/domain/repositories/user_repository.go:15 | answers whether some stored user has exactly this address |
| Repository.UserRepository.Update | internal/domain/repositories/user_repository.go:16 | replaces the record under the user's id by the user's fields, or reports "not found" and changes nothing |
| Repository.UserRepository.DeleteById | internal/domain/repositories/user_repository.go:17 | removes exactly the record under the id, or reports "not found" and changes nothing |
| Repository.UserRepository.List | internal/domain/repositories/user_repository.go:18 | returns fresh copies of exactly the records of the requested page, in listing order |
| Repository.UserRepository.Count | internal/domain/repositories/user_repository.go:19 | returns the number of stored users |
| Repository.PageAscending | internal/domain/repositories/user_repository.go:18 | a page lists its users in strictly ascending id order |
| Repository.PageLength | internal/domain/repositories/user_repository.go:18 | a page past the stored users is empty, a page within them holds exactly `limit` users, and a last page cut short holds the users from `offset` to the end |
| Repository.OrderCountsUsers | internal/domain/repositories/user_repository.go:19 | the listing order names each stored user exactly once, so its length is the count |
| Repository.AddKeepsUniqueEmails | internal/domain/usecases/user_usecases.go:80-90 | adding a user to a store with distinct addresses keeps them distinct exactly when the new address is not stored |
| Repository.ReplaceKeepsUniqueEmails | internal/domain/usecases/user_usecases.go:252-264 | replacing a user's record keeps addresses distinct when the new address is the user's own or is not stored |
| UseCases.GetResponse | internal/domain/usecases/user_usecases.go:179-185 | builds the response from the record's id, e-mail, name and timestamps |
| UseCases.ResponseHidesPassword | internal/domain/usecases/user_usecases.go:179-185 | the response carries the record's id, e-mail and name, and two records that differ only in password give the same response |
| UseCases.CreateUser | internal/domain/usecases/user_usecases.go:73-144 | a failed or positive address check, a validation error, a hashing failure and a store failure each give their own error and leave the store unchanged; otherwise the user is stored under the next id with the hashed password, and the response has no password |
| UseCases.RegisterUser | internal/domain/usecases/user_usecases.go:92-143 | the steps after the address check: validation error passed through unchanged, then hashing, then saving, with the same outcomes as in `CreateUser` |
| UseCases.GetUserByID | internal/domain/usecases/user_usecases.go:170-186 | succeeds exactly when the store reads the id, and returns the stored user's public fields; every store error becomes "not found" |
| UseCases.GetUserByEmail | internal/domain/usecases/user_usecases.go:188-204 | succeeds exactly when some stored user has exactly this address, and returns that user's public fields |
| UseCases.UpdateUser | internal/domain/usecases/user_usecases.go:235-293 | loads the user; only when the stored address differs from the requested one, a taken address or a failed check stops it; then a validation or save failure gives its error; every failure leaves the store unchanged; on success only that user's name, e-mail and update time change |
| UseCases.SaveProfile | internal/domain/usecases/user_usecases.go:266-292 | updates the loaded copy's profile and saves it; the response is read from the local copy |
| UseCases.DeleteUser | internal/domain/usecases/user_usecases.go:311-338 | succeeds exactly when the user loads and the delete succeeds, and then removes exactly that user; every failure leaves the store unchanged |
| UseCases.EffectivePage | internal/domain/usecases/user_usecases.go:371-373 | page 0 becomes page 1; any other page is kept |
| UseCases.EffectivePageSize | internal/domain/usecases/user_usecases.go:374-376 | size 0 becomes 10; any other size, negative ones included, is kept |
| UseCases.Offset | internal/domain/usecases/user_usecases.go:379 | without overflow, the offset is `(page-1)*pageSize` |
| UseCases.FirstPageOffset | internal/domain/usecases/user_usecases.go:379 | the first page starts at offset 0 |
| UseCases.ListUsers | internal/domain/usecases/user_usecases.go:369-420 | a list or count failure gives its own error; otherwise there is one response per user of the store's page at the defaulted page and size, in order, with the total count and the page count |
| UseCases.TotalPages | internal/domain/usecases/user_usecases.go:411 | computed with Go's wrap-around and truncating division; without overflow it is the ceiling of total over page size: that many pages hold every user and one fewer does not |
| UseCases.PagesCoverRecords | internal/domain/usecases/user_usecases.go:379-411 | without overflow, pages 1 to the page count start inside the stored users and the next page starts past them |
| UseCases.TotalPagesWrapsForHugePageSize | internal/domain/usecases/user_usecases.go:411 | with two users and the largest page size, the page count wraps to -1 |
| UseCases.CreateUserAdmitsDuplicate | internal/domain/usecases/user_usecases.go:80-120 | as written, a request whose address differs from a stored one only in case passes the check, and afterwards two users share an address |
| UseCases.CaseVariantPassesCreateCheck | internal/domain/usecases/user_usecases.go:80-100 | with a stored "a@x.com", no stored address equals "A@X.com", yet the user built from it is stored as "a@x.com" |
| UseCases.CreateUserNormalized | internal/domain/usecases/user_usecases.go:73-144 | create with the check made on the normalised address: if addresses were distinct before, they stay distinct |
| UseCases.UpdateUserAdmitsDuplicate | internal/domain/usecases/user_usecases.go:252-280 | as written, updating to another user's address in a different case succeeds, and afterwards two users share an address |
| UseCases.UpdateUserNormalized | internal/domain/usecases/user_usecases.go:235-293 | update with the comparison and the check made on the normalised address: if addresses were distinct before, they stay distinct |
| ApiMain.CopyOf | cmd/api/main.go:191-192 | a copy is a new object with the same fields |
| ApiMain.ModifyByCopy | cmd/api/main.go:32-35 | writing a name into a by-value parameter leaves the caller's user unchanged |
| ApiMain.ModifyByPointer | cmd/api/main.go:37-40 | writing through the pointer sets the caller's user's name to "Charlie" and keeps its id |
| ApiMain.DemonstratePointerVsCopy | cmd/api/main.go:16-30 | the user is still "Alice" after the by-value call and is "Charlie" after the pointer call |
| ApiMain.StoredPointers | cmd/api/main.go:57-61 | the i-th element is the stored object under the i-th key in iteration order |
| ApiMain.CopiedUsers | cmd/api/main.go:188-194 | the i-th element is a new object with the fields of the i-th stored user, and no two elements are the same object |
| ApiMain.Storage.DangerousList | cmd/api/main.go:56-62 | returns the stored objects themselves, one per entry |
| ApiMain.Storage.SafeList | cmd/api/main.go:65-72 | returns one copy per entry, and none of them is a stored object |
| ApiMain.RenameThroughDangerousList | cmd/api/main.go:75-82 | renaming the first listed user renames the stored user |
| ApiMain.RenameThroughSafeList | cmd/api/main.go:88-95 | renaming the first listed user leaves every stored user's name as it was |
| ApiMain.Storage.UpdateInPlace | cmd/api/main.go:114-119 | the stored object under the id gets the argument's name and stays the stored object |
| ApiMain.Storage.UpdateWithReplace | cmd/api/main.go:122-126 | a new object with the argument's fields is stored under the id; the object stored there before, if any, is no longer stored there |
| ApiMain.MockUserRepository.List | cmd/api/main.go:187-195 | returns one copy per stored user, and none of them is a stored object |
| ApiMain.MockUserRepository.Update | cmd/api/main.go:198-213 | for a stored id, writes the argument's name into the stored object, which stays in place; other users are unchanged and the argument is never stored; an absent id is "user not found" and changes nothing |
| ApiMain.MockUserRepository.GetByID | cmd/api/main.go:216-225 | returns a new object with the stored user's fields, or "user not found" |
| ApiMain.RenameThroughList | cmd/api/main.go:238-247 | renaming a listed user leaves every stored user's name as it was |
| ApiMain.UpdateThenRenameArgument | cmd/api/main.go:250-257 | after `Update`, the stored user has the argument's name, and a later rename of the argument does not reach the store |

## Left out

- Logging (the `Logger` calls) is left out. It has no effect on results.
- The welcome e-mail that `CreateUserUseCase.Execute` sends from a goroutine is left out. It runs detached and its failure is only logged. The `EmailSender` interface is not part of this model.
- `context.Context` cancellation is left out. No operation in the core reads it.
- `PasswordHasher.Verify` is left out because no modelled operation calls it. `Hash` is a parameter that may fail (`None`).
- `time.Now()` is replaced by a `now` parameter. The model claims nothing about clocks moving forward.
- `strings.ToLower` lower-cases only the ASCII and Latin-1 capitals here. Other scripts' case mappings are not modelled, and neither are invalid UTF-8 byte strings: a string is a sequence of Unicode scalar values.
- Text.ToLowerKeepsByteLen holds only for the restricted case mapping. Go's `unicode.ToLower` changes some runes' UTF-8 length: U+023A (2 bytes) becomes U+2C65 (3 bytes), and U+0130 and U+212A become the one-byte `i` and `k`.
- Entities.NormalizedEmailAcceptable holds only for the restricted case mapping. In Go, an address of 127 × U+023A followed by `@` is 255 bytes long and passes `validateEmail`, but its lower-cased form is 382 bytes long and fails it.
- Entities.NewUserIsValid holds only for the restricted case mapping. In Go, `NewUser` accepts the address above and stores its 382-byte lower-cased form, so `isValidUser` rejects the user it built.
- Entities.ProfileUpdateKeepsValidity holds only for the restricted case mapping. In Go, `UpdateUserProfile` with name "Ann" and the address of 127 × U+023A followed by `@` passes `validateEmail` (255 bytes) and stores the 382-byte lower-cased form, so `isValidUser` is false afterwards although the password is valid.
- Concurrency is left out: locking, data races on the shared map, and atomicity of the use cases' check-then-act sequences.
- Struct tags (`json`, `validate`) on the request types are left out. Nothing in the core enforces them.
- `UserRepositoryFilters` and any search operation are left out. No modelled operation uses them.
- The store implementation itself is a modelling choice, because the repository has none. It picks the lowest id in `GetByEmail` and lists in ascending id order. It treats a negative limit as an empty page and a negative offset as zero. Its backend failures are injected through `failing`.
- `cmd/api/main.go`: the printing, `demonstrateStackVsHeap` and `main` are left out. `demonstrateStackVsHeap` only builds values and prints their addresses, and `main` only calls the demonstrations in turn. The pointer-versus-copy demonstration is modelled by the names it prints, not by its addresses.
- Go's map iteration order is chosen by the runtime, so the listings in `cmd/api/main.go` take it as a parameter `keys` that enumerates the map.
- Entities.NewUser: its contract does not repeat `isValidUser` for the new object. `Entities.NewUserIsValid` proves it about the record `NewUser` stores.
- UseCases.TotalPages: without a bound on the page size, `total + pageSize - 1` can overflow. The model computes the wrapped value as Go does, and `UseCases.TotalPagesWrapsForHugePageSize` exhibits it. The ceiling property is proved only where no overflow occurs.
- The interface promises no uniqueness and no normalisation, and the use cases check the raw request address; the model follows the code. The consequence is recorded under Findings.

## Findings

| source | as written | input that shows it | evidently intended | confidence | as-written member | corrected member |
|---|---|---|---|---|---|---|
| internal/domain/usecases/user_usecases.go:80-113 | the duplicate check looks up the raw request address, but `NewUser` stores it trimmed and lower-cased | stored user with "a@x.com"; create with email "A@X.com", name "Ann", password "secret1" | check the normalised address, so no two users share one | not executed | UseCases.CaseVariantPassesCreateCheck | UseCases.CreateUserNormalized |
| internal/domain/usecases/user_usecases.go:252-267 | the update compares the stored address with the raw request address and checks the raw one; `UpdateUserProfile` then stores it normalised | users 1 "b@x.com" and 2 "a@x.com"; update user 1 with name "Ann" and email "A@X.com" | compare and check the normalised address, so no two users share one | not executed | UseCases.UpdateUserAdmitsDuplicate | UseCases.UpdateUserNormalized |

`UseCases.CreateUserAdmitsDuplicate` runs the as-written `UseCases.CreateUser` on any such request and proves that the store then holds two users with the same address.
