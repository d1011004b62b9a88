# Cloud file storage: file metadata, refresh tokens and the gateway, in Dafny

This project models the decision-making core of a small cloud file storage
system built from microservices:

- the **file-metadata service**: a `Files` table whose records carry an owner,
  a visibility (`Private`, `Public`, `Shared`) and share rows. Its handlers
  create, update, share and delete files. Its two queries list the files a
  caller may read, and find one of them by id;
- the service's **AutoMapper profile**: visibility printed and parsed, and
  the comma-separated id list of the update form turned into share rows;
- the **FluentValidation validators** of the metadata, authentication and
  storage services. The metadata service's MediatR pipeline
  (APIs/FileMetadataAPI/Program.cs, lines 32 and 36) runs the validator of
  each command and query that has one before its handler, with
  `FileShareDTOValidator` as their child validator. `GetFilesQuery` has no
  validator, and `FileDTOValidator` is run by nothing;
- the **authentication service's refresh-token lifecycle**: login issues a
  token, refresh rotates it, logout clears it, and registration adds a user;
- the **gateway's JWT middleware**. It lets the anonymous paths through and
  checks the `Bearer` scheme of section 2.1 of RFC 6750, comparing the scheme
  name without regard to case as section 2.1 of RFC 7235 allows. It maps a
  rejected token to 401, 403 or 500;
- the **client's form models** (data-annotation rules) and its
  `ToUpperFirst` helper.

The handlers that change a table are methods of a class holding that table:
`FileStore.FileStore` (file id to record) and `AuthService.UserTable` (user id
to user). The middleware is a method of `Gateway.RequestContext`. Each method
states its whole guard chain and the new state. The pure parts are functions:
the queries, the record changes, the mapping, the validators and the
middleware's decision. Lemmas relate them.

The following are parameters, because the system gets them from outside:

- the clock, an integer instant in seconds;
- the generated refresh token, required to be unused;
- the identity-column id of an inserted row;
- BCrypt's verify and hash;
- the JWT library's signature, issuer and audience verdict.

The caller's identity is the `HttpContext` value (`Claims.HttpContext`); none
means there is no context.

Library behaviour modelled explicitly (module `Text` and `Rules`):

- `string.Trim`, over the full `char.IsWhiteSpace` set, and `string.Split` with `RemoveEmptyEntries`.
- `int.Parse` and `int.TryParse` of ASCII digits within Int32, after an optional '+' or '-'.
- `StringComparison.OrdinalIgnoreCase`, folding ASCII letters only.
- `Enum.Parse` and `Enum.TryParse` over the three member names. Both trim white space from the text before matching it.
- FluentValidation's `NotEmpty`, `MaximumLength`, `MinimumLength`,
  `EmailAddress` and `Matches`.
- DataAnnotations' `[Required]`, `[StringLength]`, `[MaxLength]`,
  `[EmailAddress]` and `[RegularExpression]`.

Where the system description and the code differ, the model follows the code:

- Reads give no role a way round the read filter.
- The delete handler accepts the role text `"admin"` exactly.
- The gateway forwards no `X-User` headers. It leaves the validated principal
  in `HttpContext.User` and rewrites the `Authorization` header.
- The update handler sets `IsOwner` on a `FileDTO` type that declares no such
  member. The model's DTO has no `IsOwner`.

## Model

| member | source | states |
|---|---|---|
| Claims.PrincipalOf | APIs/GatewayAPI/Middlewares/JwtAuthenticationMiddleware.cs:61-62 | Defines the principal `ValidateToken` builds: an authenticated identity with `nameid` as NameIdentifier and `role` as Role. `IssuedClaimNamesUser` and `Gateway.IssuedTokenAdmittedForAnHour` state what it gives the backends. |
| Claims.ClaimedId | APIs/FileMetadataAPI/Handlers/UpdateFileCommandHandler.cs:29 | Defines the user id a handler reads: `int.Parse` of the NameIdentifier claim, none when the claim is missing or does not parse. |
| Claims.IssuedClaimNamesUser | APIs/AuthenticationAPI/Handlers/LoginQueryHandler.cs:26 | The user id written into a token with `ToString` parses back with `int.Parse` to the same Int32. |
| Text.Trim | APIs/FileMetadataAPI/Profiles/MappingProfile.cs:20 | The trimmed text has no white space at either end and is the input with white space removed from both ends only. |
| Text.TrimIdempotent | APIs/GatewayAPI/Middlewares/JwtAuthenticationMiddleware.cs:43 | Trimming twice is trimming once. |
| Text.SplitJoin | APIs/FileMetadataAPI/Profiles/MappingProfile.cs:32 | Splitting a list joined with a separator that no item contains gives back the items. |
| Text.JoinSplit | APIs/FileMetadataAPI/Profiles/MappingProfile.cs:32 | Joining the pieces of a split with the separator gives back the text. |
| Text.RemoveEmptyEntries | APIs/FileMetadataAPI/Profiles/MappingProfile.cs:32 | A text is among the kept pieces exactly when it is one of the input's pieces and is not empty. There are never more pieces than in the input. |
| Text.RemoveEmptyEntriesAppend | APIs/FileMetadataAPI/Profiles/MappingProfile.cs:32 | Removing empty pieces from two lists joined is removing them from each list and joining the results, so the order of the pieces is kept. |
| Text.ParseIntToString | APIs/FileMetadataAPI/Profiles/MappingProfile.cs:35 | Every Int32 parses back from its decimal text. |
| Text.ParseInt32 | APIs/FileMetadataAPI/Profiles/MappingProfile.cs:35 | A parsed value is an Int32, and a negative one comes only from text that starts with '-'. |
| Text.StartsWithIgnoringCase | APIs/GatewayAPI/Middlewares/JwtAuthenticationMiddleware.cs:36 | A text that starts with a prefix ordinally also starts with it ignoring case. |
| Text.LowerStartsWith | APIs/GatewayAPI/Middlewares/JwtAuthenticationMiddleware.cs:24-27 | For a lower-case prefix, lower-casing the text and testing the prefix is the same as testing it ignoring case. |
| FileModel.ParseVisibility | APIs/FileMetadataAPI/Profiles/MappingProfile.cs:18-23 | White space around the text is dropped first. The member returned is one whose name matches the rest, exactly or ignoring case. None is returned only when no name matches it. |
| FileModel.ParseVisibilityOfName | APIs/FileMetadataAPI/Profiles/MappingProfile.cs:18-23 | Text that trims to a member's name parses to that member; with case folding, so does text that trims to the name in any case. No two names collide under case folding. |
| FileModel.ParseVisibilityName | APIs/FileMetadataAPI/Profiles/MappingProfile.cs:15-18 | A visibility printed with `ToString` parses back to itself, with or without case folding. |
| FileModel.ParseVisibilityExact | APIs/FileMetadataAPI/Validators/UpdateFileCommandValidator.cs:18-21 | The exact-case parse accepts exactly the texts that trim to "Private", "Public" or "Shared". |
| FileModel.OwnerHasEveryRight | APIs/FileMetadataAPI/Handlers/DeleteFileCommandHandler.cs:35 | The owner may read, update, share and delete the file, whatever its visibility and shares. |
| FileModel.ShareGrantsReadOnly | APIs/FileMetadataAPI/Handlers/GetFilesQueryHandler.cs:33-34 | A share row lets its user read the file whatever its permission and the visibility, but never update, share or delete it (unless they hold the role "admin"). |
| FileModel.CanRead | APIs/FileMetadataAPI/Handlers/GetFilesQueryHandler.cs:33-34 | The read filter: the caller owns the file, or it is public, or one of its share rows names the caller. |
| FileModel.CanModify | APIs/FileMetadataAPI/Handlers/UpdateFileCommandHandler.cs:36 | Update and share: the owner only. |
| FileModel.CanDelete | APIs/FileMetadataAPI/Handlers/DeleteFileCommandHandler.cs:35 | Delete: the owner, or a caller whose role claim is exactly "admin". |
| FileModel.PrivateUnsharedIsOwnerOnly | APIs/FileMetadataAPI/Handlers/GetFilesQueryHandler.cs:31-35 | A private file with no share rows is readable by its owner and nobody else. |
| FileModel.AdminDeletes | APIs/FileMetadataAPI/Handlers/DeleteFileCommandHandler.cs:34-39 | The role "admin" may delete any file; "Admin" is not that role. |
| FileMapping.FromDtoToDto | APIs/FileMetadataAPI/Profiles/MappingProfile.cs:14-18 | A record mapped to a DTO and back is the same record. |
| FileMapping.ToDto | APIs/FileMetadataAPI/Profiles/MappingProfile.cs:14-16 | File to DTO: the members copied by name and the visibility written as its member name. |
| FileMapping.FromDto | APIs/FileMetadataAPI/Profiles/MappingProfile.cs:17-18 | DTO to file: the members copied by name and the visibility parsed ignoring case. A DTO with an unparseable visibility has no record, as `Enum.Parse` throws; so has a DTO without a name (see Left out). |
| FileMapping.CreateVisibility | APIs/FileMetadataAPI/Profiles/MappingProfile.cs:19-20 | Create's visibility: none for a null text, otherwise the trimmed text parsed ignoring case. |
| FileMapping.UpdateVisibility | APIs/FileMetadataAPI/Profiles/MappingProfile.cs:22-23 | Update's visibility: none for a null text, otherwise the text parsed ignoring case. |
| FileMapping.CreateAgreesWithUpdate | APIs/FileMetadataAPI/Profiles/MappingProfile.cs:19-23 | Create's extra `Trim` changes nothing: both maps give every text the same visibility. |
| FileMapping.PaddedNameParses | APIs/FileMetadataAPI/Profiles/MappingProfile.cs:19-23 | " public " becomes `Public` under both maps. |
| FileMapping.ShareOfPiece | APIs/FileMetadataAPI/Profiles/MappingProfile.cs:33-44 | A piece yields a row exactly when its trimmed text parses as an Int32 above 0. The row is then that user's, with the form's permission. |
| FileMapping.SharesFromPieces | APIs/FileMetadataAPI/Profiles/MappingProfile.cs:32-46 | The pieces yield at most one row each, and every row has a positive user id and the form's permission. Which rows come out, and in what order, is stated by `SharesFromPiecesMembers` and `SharesFromPiecesAppend`. |
| FileMapping.SharesFromPiecesMembers | APIs/FileMetadataAPI/Profiles/MappingProfile.cs:33-44 | A row comes out of the pieces exactly when it carries the form's permission and a positive user id that some piece, trimmed, parses to. |
| FileMapping.SharesFromPiecesAppend | APIs/FileMetadataAPI/Profiles/MappingProfile.cs:33-46 | The rows of two lists of pieces joined are the rows of each list, one after the other. |
| FileMapping.PieceExamples | APIs/FileMetadataAPI/Profiles/MappingProfile.cs:35-43 | " 7 " yields user 7's row; "x" and "-3" yield none. |
| FileMapping.SharesFromUserIds | APIs/FileMetadataAPI/Profiles/MappingProfile.cs:30-46 | A null or empty id list gives no shares. Otherwise there are at most as many shares as non-empty pieces, each with a positive user id and the form's permission. `SharesFromUserIdsMembers` states which they are. |
| FileMapping.ParsingPieceKept | APIs/FileMetadataAPI/Profiles/MappingProfile.cs:32-35 | Dropping the empty pieces loses no piece whose trimmed text parses. |
| FileMapping.SharesFromUserIdsMembers | APIs/FileMetadataAPI/Profiles/MappingProfile.cs:30-46 | The file is shared with a user exactly when the id list is neither null nor empty and one of its comma-separated pieces, trimmed, parses to that user's positive id; the row carries the form's permission. |
| FileMapping.MapUpdateFileDto | APIs/FileMetadataAPI/Profiles/MappingProfile.cs:26-47 | The update DTO becomes a command with the fields copied by name and the shares the AfterMap builds from the id list and the one permission. |
| FileMapping.AfterMapExample | APIs/FileMetadataAPI/Profiles/MappingProfile.cs:30-46 | The id list " 7 ,x,-3" gives exactly one row, user 7's. |
| FileMapping.ShareOfIdText | APIs/FileMetadataAPI/Profiles/MappingProfile.cs:35-41 | The decimal text of a positive Int32 yields exactly that user's share row. |
| FileMapping.SharesFromIdTexts | APIs/FileMetadataAPI/Profiles/MappingProfile.cs:33-46 | The decimal texts of positive ids yield one share per id, in order. |
| FileMapping.SharesFromJoinedIds | APIs/FileMetadataAPI/Profiles/MappingProfile.cs:30-46 | Positive ids written as a comma-separated list come back as one share per id, in input order, duplicates kept. |
| FileValidators.FileShareDtoValidMeans | APIs/FileMetadataAPI/Validators/FileShareDTOValidator.cs:11-16 | A share passes exactly when its user id is positive and its permission is "Read" or "Edit" in that case; null, "" and "read" fail. |
| FileValidators.FileShareDtoValid | APIs/FileMetadataAPI/Validators/FileShareDTOValidator.cs:11-16 | `FileShareDTOValidator`: a positive user id and a present permission equal to "Read" or "Edit". |
| FileValidators.VisibilityRule | APIs/FileMetadataAPI/Validators/CreateFileCommandValidator.cs:15-18 | The visibility rule of every validator: `NotEmpty` and `Enum.TryParse` without case folding. |
| FileValidators.CreateFileCommandValid | APIs/FileMetadataAPI/Validators/CreateFileCommandValidator.cs:10-20 | A required name of at most 255 characters, a description of at most 1000, the visibility rule and valid shares. |
| FileValidators.UpdateFileCommandValid | APIs/FileMetadataAPI/Validators/UpdateFileCommandValidator.cs:11-31 | As for create, plus a positive id. The share list must be empty when the text is "Private" or "Public" and non-empty when it is "Shared"; both guards compare the raw text. |
| FileValidators.ShareFileCommandValid | APIs/FileMetadataAPI/Validators/ShareFileCommandValidator.cs:10-17 | A positive file id, the visibility rule and valid shares. |
| FileValidators.FileDtoValid | APIs/FileMetadataAPI/Validators/FileDTOValidator.cs:10-26 | A positive id and owner, a required name of at most 255 characters, a description of at most 1000, a set upload date, the visibility rule and valid shares. |
| FileValidators.DeleteFileCommandValid | APIs/FileMetadataAPI/Validators/DeleteFileCommandValidator.cs:10-11 | A positive id. |
| FileValidators.GetFileByIdQueryValid | APIs/FileMetadataAPI/Validators/GetFileByIdQueryValidator.cs:10-11 | A positive id. |
| FileValidators.VisibilityRuleMeans | APIs/FileMetadataAPI/Validators/CreateFileCommandValidator.cs:15-18 | The visibility rule accepts exactly the texts that trim to one of the three member names, spelled as declared. White space around the name is allowed; case is not folded. |
| FileValidators.ValidVisibilityParses | APIs/FileMetadataAPI/Profiles/MappingProfile.cs:18-23 | A visibility the validators accept parses in create, update and share, all to the same member. |
| FileValidators.ValidUpdateSharesIffShared | APIs/FileMetadataAPI/Validators/UpdateFileCommandValidator.cs:18-29 | An accepted update whose text is exactly "Shared" has shares, and one whose text is exactly "Private" or "Public" has none. When the text has no white space at its ends, the command has shares exactly when it says "Shared". |
| FileValidators.PaddedSharedPassesUpdateValidator | APIs/FileMetadataAPI/Validators/UpdateFileCommandValidator.cs:18-29 | " Shared " with an empty share list passes the update validator, and the update map reads it as `Shared`. |
| FileValidators.UpdateFileCommandValidIntended | APIs/FileMetadataAPI/Validators/UpdateFileCommandValidator.cs:22-29 | The update validator with its two share-list guards on the visibility the update will store instead of the raw text. |
| FileValidators.IntendedUpdateSharesIffShared | APIs/FileMetadataAPI/Validators/UpdateFileCommandValidator.cs:22-29 | A command the corrected validator accepts has shares exactly when its visibility parses to `Shared`. On text with no white space at its ends, the validator as written accepts it too. |
| FileValidators.CreateAndShareIgnoreShareList | APIs/FileMetadataAPI/Validators/CreateFileCommandValidator.cs:10-20 | Create and share validation let "Shared" with no share and "Private" with shares pass. |
| FileValidators.MappedSharesValid | APIs/FileMetadataAPI/Validators/UpdateFileCommandValidator.cs:30-31 | When the id list yields at least one row, the rows pass the share validator exactly when the one permission is "Read" or "Edit". |
| FileStore.AuthenticatedIsClaimedAndAuthenticated | APIs/FileMetadataAPI/Handlers/DeleteFileCommandHandler.cs:16-28 | The handlers that check authentication accept exactly the callers with a parseable id claim that are also authenticated, and read the same id. |
| FileStore.AuthenticatedUserId | APIs/FileMetadataAPI/Handlers/UpdateFileCommandHandler.cs:19-29 | The caller is found exactly when there is a context, it is authenticated, and its id claim parses; the id is the parsed Int32 claim. `Unauthorized` is the answer exactly when there is no context or it is not authenticated. |
| FileStore.ClaimedUserId | APIs/FileMetadataAPI/Handlers/CreateFileCommandHandler.cs:18-19 | The caller is found exactly when there is a context whose id claim parses; the id is the parsed Int32 claim. Authentication is not consulted. `NoHttpContext` is the answer exactly when there is no context. |
| FileStore.SharesSaveable | APIs/FileMetadataAPI/Migrations/20250521084737_InitialCreate.cs:36-42 | Share rows can be saved when every permission is present (the column is NOT NULL) and no user appears twice (the composite primary key). |
| FileStore.NewRecord | APIs/FileMetadataAPI/Handlers/CreateFileCommandHandler.cs:21-26 | Create's record exists exactly when the trimmed visibility parses and the rows can be saved: a name, a permission on every share, no user twice. It is owned by the caller, stamped with the current time, has no path, and takes name, description, visibility and shares from the command. |
| FileStore.ApplyUpdate | APIs/FileMetadataAPI/Handlers/UpdateFileCommandHandler.cs:41-45 | An update succeeds exactly when the visibility parses ignoring case and the rows can be saved. Name, description and visibility come from the command, the shares are replaced by the command's, and owner, upload date and path are kept. |
| FileStore.ApplyShare | APIs/FileMetadataAPI/Handlers/ShareFileCommandHandler.cs:39-43 | A share succeeds exactly when the visibility parses without case folding and the share rows can be saved. Only the visibility and the share rows change, the shares replaced wholesale. The stored visibility's name is the trimmed text. |
| FileStore.PaddedSharedUpdateStoresNoShares | APIs/FileMetadataAPI/Validators/UpdateFileCommandValidator.cs:22-29 | A validated update with " Shared " and no shares stores a `Shared` file shared with nobody. |
| FileStore.ValidatedUpdateKeepsSharesConsistent | APIs/FileMetadataAPI/Validators/UpdateFileCommandValidator.cs:22-29 | After an update that the corrected validator accepts, the file has shares exactly when it is `Shared`. |
| FileStore.CreatedDtoValid | APIs/FileMetadataAPI/Handlers/CreateFileCommandHandler.cs:22-28 | For a validated create command, the DTO create returns passes `FileDTOValidator`. |
| FileStore.PrivateFileWithShares | APIs/FileMetadataAPI/Validators/ShareFileCommandValidator.cs:10-17 | A validated share command can leave a `Private` file with a share row, whose user can then read it but not modify it. |
| FileStore.DeleteCascades | APIs/FileMetadataAPI/Migrations/20250521084737_InitialCreate.cs:42-48 | Removing a file removes exactly its share rows and no other. |
| FileStore.StoredIdsPassIdValidators | APIs/FileMetadataAPI/Validators/DeleteFileCommandValidator.cs:10-11 | Every stored id passes the delete and get-by-id validators. |
| FileStore.ListFiles | APIs/FileMetadataAPI/Handlers/GetFilesQueryHandler.cs:20-37 | The query fails exactly when the id claim is missing or not an Int32. Otherwise a file is listed exactly when its owner is the caller, or it is public, or one of its share rows names the caller. |
| FileStore.FindFile | APIs/FileMetadataAPI/Handlers/GetFileByIdQueryHandler.cs:18-28 | A file is returned only when it exists under that id, and it is returned as its DTO. |
| FileStore.FindAgreesWithList | APIs/FileMetadataAPI/Handlers/GetFileByIdQueryHandler.cs:21-26 | Get-by-id succeeds exactly when the id is in the list for the same caller, with the same DTO. A missing file and an unreadable one fail alike. |
| FileStore.ReadsIgnoreRoleAndAuthentication | APIs/FileMetadataAPI/Handlers/GetFilesQueryHandler.cs:31-35 | Callers with the same id claim see the same files, whatever their role or authentication. |
| FileStore.FileStore.Create | APIs/FileMetadataAPI/Handlers/CreateFileCommandHandler.cs:18-28 | A missing or malformed claim fails and changes nothing. On success the table gains exactly the new record under its new id, and the DTO of that record is returned. |
| FileStore.FileStore.Update | APIs/FileMetadataAPI/Handlers/UpdateFileCommandHandler.cs:19-47 | Unauthenticated callers get Unauthorized, a missing claim gets Forbidden, an unknown id gets NotFound and a non-owner gets Forbidden; none of these changes anything. On success only the target record changes, to the updated one, and its DTO is returned. |
| FileStore.FileStore.Share | APIs/FileMetadataAPI/Handlers/ShareFileCommandHandler.cs:17-43 | The same guard chain as update, each failure leaving the table unchanged. On success only the target record changes, to its new visibility and share rows. |
| FileStore.FileStore.Delete | APIs/FileMetadataAPI/Handlers/DeleteFileCommandHandler.cs:16-43 | Unauthenticated callers get Unauthorized, a missing claim gets Forbidden and an unknown id gets NotFound. A caller who is neither owner nor "admin" gets Forbidden. None of these changes anything. On success exactly that file is removed, with exactly its share rows. |
| AuthModel.AccessTokenFor | APIs/AuthenticationAPI/Handlers/LoginQueryHandler.cs:24-30 | The access token carries the user's e-mail and role and expires one hour after issue. |
| AuthModel.AccessTokenNamesUser | APIs/AuthenticationAPI/Handlers/LoginQueryHandler.cs:26 | The token's id claim names the user it was issued for. |
| AuthModel.WithRefreshToken | APIs/AuthenticationAPI/Handlers/LoginQueryHandler.cs:36-38 | The row gets the new refresh token, expiring seven days from now, and no other column changes. |
| AuthModel.WithoutRefreshToken | APIs/AuthenticationAPI/Handlers/LogoutCommandHandler.cs:32-33 | The row loses its refresh token and expiry, and no other column changes. |
| AuthModel.IssuedResult | APIs/AuthenticationAPI/Handlers/LoginQueryHandler.cs:41-45 | Defines the result login and refresh return: the access token, the new refresh token, and no `User`. |
| AuthModel.HoldsLiveToken | APIs/AuthenticationAPI/Handlers/RefreshTokenCommandHandler.cs:16 | Defines the refresh lookup: the stored token equals the presented one and its expiry lies after now. |
| AuthModel.NewUser | APIs/AuthenticationAPI/Handlers/RegisterCommandHandler.cs:17-19 | Defines the user registration stores: name and e-mail from the command, the password's hash, role "User", no refresh token. |
| AuthModel.IssuedTokenIsLive | APIs/AuthenticationAPI/Handlers/RefreshTokenCommandHandler.cs:16 | A freshly issued refresh token matches the refresh lookup exactly until seven days after issue. |
| AuthModel.LoggedOutHoldsNoToken | APIs/AuthenticationAPI/Handlers/LogoutCommandHandler.cs:32-34 | After logout no refresh request matches the row, whatever the token and the time, and logging out twice is logging out once. |
| AuthModel.RotatedTokenRetires | APIs/AuthenticationAPI/Handlers/RefreshTokenCommandHandler.cs:36-38 | Once the row holds a new token, the one presented before no longer matches it. |
| AuthService.UserTable.Login | APIs/AuthenticationAPI/Handlers/LoginQueryHandler.cs:16-45 | An unknown e-mail, a null password or a failed verification fails and changes nothing. Otherwise only that user's row changes, to a new refresh token valid seven days. The result holds that token and an access token for the user, and the table stays consistent. |
| AuthService.UserTable.Refresh | APIs/AuthenticationAPI/Handlers/RefreshTokenCommandHandler.cs:16-45 | Refresh succeeds exactly when some row holds the presented token with an expiry after now. Failure changes nothing. On success only that row is rotated, the new tokens are returned, and afterwards no row matches the presented token. |
| AuthService.UserTable.Logout | APIs/AuthenticationAPI/Handlers/LogoutCommandHandler.cs:13-34 | No context, no id claim, a malformed claim or an unknown user each fails with its own error and changes nothing. Otherwise only the caller's row loses its refresh token and expiry. |
| AuthService.UserTable.Register | APIs/AuthenticationAPI/Handlers/RegisterCommandHandler.cs:14-24 | A taken e-mail fails and adds nobody. Otherwise exactly one user is added under the new id, with the password's hash, role "User" and no refresh token. E-mail uniqueness is kept, and the returned DTO carries the new id, name and e-mail. |
| AuthValidators.IssuedResultFailsAuthResultValidator | APIs/AuthenticationAPI/Validators/AuthResultValidator.cs:16-18 | The result login and refresh build leaves `User` unset, so `AuthResultValidator` rejects it. |
| AuthValidators.RegisteredDtoValid | APIs/AuthenticationAPI/Validators/UserDTOValidator.cs:10-17 | Whatever registration accepts, the DTO it returns with a positive id passes `UserDTOValidator`. |
| AuthValidators.RegisterPasswordValid | APIs/AuthenticationAPI/Validators/RegisterCommandValidator.cs:16-21 | A present password of at least eight characters with a capital A-Z, a digit and one of `!@#$%^&*`. |
| AuthValidators.RegisterCommandValid | APIs/AuthenticationAPI/Validators/RegisterCommandValidator.cs:10-21 | A required name of at most 50 characters, a required e-mail address and the password rules. |
| AuthValidators.LoginQueryValid | APIs/AuthenticationAPI/Validators/LoginQueryValidator.cs:10-14 | A required e-mail address and a required password. |
| AuthValidators.RefreshTokenCommandValid | APIs/AuthenticationAPI/Validators/RefreshTokenCommandValidator.cs:10-11 | A required refresh token. |
| AuthValidators.UserInfoValid | APIs/AuthenticationAPI/Validators/AuthResultValidator.cs:26-39 | A required id, a required name of at most 50 characters, a required e-mail address; the role is not checked. |
| AuthValidators.AuthResultValid | APIs/AuthenticationAPI/Validators/AuthResultValidator.cs:10-18 | Both tokens present and a valid `User`. |
| AuthValidators.UserDtoValid | APIs/AuthenticationAPI/Validators/UserDTOValidator.cs:10-17 | A positive id, a required name of at most 50 characters and a required e-mail address. |
| AuthValidators.DownloadFileRequestValid | APIs/FileStorageAPI/Validators/DownloadFileRequestValidator.cs:10-12 | A file path with a character that is not white space. |
| AuthValidators.LoginPasswordUnconstrained | APIs/AuthenticationAPI/Validators/LoginQueryValidator.cs:13-14 | Login checks no password strength: a one-character password passes login but not registration. |
| AuthValidators.RefreshTokenValidMeans | APIs/AuthenticationAPI/Validators/RefreshTokenCommandValidator.cs:10-11 | A refresh token passes exactly when it holds a character that is not white space. |
| AuthValidators.DownloadFilePathMeans | APIs/FileStorageAPI/Validators/DownloadFileRequestValidator.cs:10-12 | A download path passes exactly when it holds a character that is not white space. |
| Rules.NotEmptyMeans | APIs/AuthenticationAPI/Validators/RefreshTokenCommandValidator.cs:10-11 | `NotEmpty` holds exactly for a present text with a character that is not white space. |
| Rules.EmailShapeMeans | APIs/AuthenticationAPI/Validators/RegisterCommandValidator.cs:13-15 | The e-mail rule holds exactly when the text has a single '@', neither first nor last. |
| Gateway.IsAnonymous | APIs/GatewayAPI/Middlewares/JwtAuthenticationMiddleware.cs:24-27 | Defines the bypass test: the lower-cased path starts with the lower-cased login or register path. |
| Gateway.HeaderText | APIs/GatewayAPI/Middlewares/JwtAuthenticationMiddleware.cs:35 | Defines the header text as `StringValues.ToString()` gives it: the non-empty `Authorization` values joined by commas, empty when there are none. |
| Gateway.BearerToken | APIs/GatewayAPI/Middlewares/JwtAuthenticationMiddleware.cs:43 | Defines the token: the header after its seven-character "Bearer " prefix, trimmed. |
| Gateway.Expired | APIs/GatewayAPI/Middlewares/JwtAuthenticationMiddleware.cs:52-57 | Defines the lifetime check with zero clock skew: the token has expired once its expiry lies before now. |
| Gateway.AnonymousIgnoresCase | APIs/GatewayAPI/Middlewares/JwtAuthenticationMiddleware.cs:13-32 | The anonymous paths are exactly those starting with the login or register path in any case. |
| Gateway.Decide | APIs/GatewayAPI/Middlewares/JwtAuthenticationMiddleware.cs:22-81 | The request passes through unchecked exactly on an anonymous path. Every denial is 401, 403 or 500, and 500 only when the library faulted on the header's token. |
| Gateway.HeaderGate | APIs/GatewayAPI/Middlewares/JwtAuthenticationMiddleware.cs:24-41 | An anonymous path passes whatever its headers. Any other path with no header, or one not starting with "Bearer " in some case, ends with 401. |
| Gateway.NoForwardWithoutValidToken | APIs/GatewayAPI/Middlewares/JwtAuthenticationMiddleware.cs:27-81 | Only an anonymous path passes unchecked. A forwarded request had a Bearer header whose trimmed token the library accepted and whose lifetime had not run out; it carries "Bearer " plus that token and the token's principal. |
| Gateway.BearerHeaderOf | APIs/GatewayAPI/Middlewares/JwtAuthenticationMiddleware.cs:36-43 | "Bearer " followed by a trimmed token passes the scheme check and yields that token. |
| Gateway.ValidBearerForwarded | APIs/GatewayAPI/Middlewares/JwtAuthenticationMiddleware.cs:36-68 | Off the anonymous paths, "Bearer " with a trimmed token that the library accepts and that has not expired is forwarded with that header and the token's principal. |
| Gateway.EmptyHeaderValueSkipped | APIs/GatewayAPI/Middlewares/JwtAuthenticationMiddleware.cs:35 | An empty `Authorization` value anywhere among the others leaves the header text unchanged. |
| Gateway.EmptyValueBeforeBearerForwarded | APIs/GatewayAPI/Middlewares/JwtAuthenticationMiddleware.cs:35-68 | An empty value followed by "Bearer " and a valid, unexpired token is forwarded exactly as the "Bearer " value alone would be. |
| Gateway.ForwardedHeaderIsStable | APIs/GatewayAPI/Middlewares/JwtAuthenticationMiddleware.cs:43-67 | The header the middleware forwards would be admitted again with the same decision. |
| Gateway.IssuedTokenAdmittedForAnHour | APIs/GatewayAPI/Middlewares/JwtAuthenticationMiddleware.cs:50-73 | A token the authentication service issued is forwarded, naming its user, until one hour after issue; after that the answer is 403. |
| Gateway.RequestContext.Invoke | APIs/GatewayAPI/Middlewares/JwtAuthenticationMiddleware.cs:22-81 | On pass-through the next stage runs once and nothing else changes. On forward the principal and header are set before it runs once. On denial only the status is set and the next stage does not run. |
| StringExtensions.ToUpperFirst | Client/MVCApplication/Extensions/StringExtensions.cs:5-13 | Null stays null and the length is kept. |
| StringExtensions.ToUpperFirstPointwise | Client/MVCApplication/Extensions/StringExtensions.cs:7-12 | A null or empty input is returned unchanged. Otherwise the first character is upper-cased and every later one is the input's own. |
| StringExtensions.ToUpperFirstStartsUpper | Client/MVCApplication/Extensions/StringExtensions.cs:12 | The result never starts with a lower-case letter; a lower-case first letter becomes its capital. |
| StringExtensions.ToUpperFirstKeepsUpper | Client/MVCApplication/Extensions/StringExtensions.cs:12 | A text that does not start with a lower-case letter is returned as it is. |
| StringExtensions.ToUpperFirstIdempotent | Client/MVCApplication/Extensions/StringExtensions.cs:12 | Applying it twice is applying it once. |
| ClientModels.ClientPasswordPassesServer | Client/MVCApplication/Models/RegisterViewModel.cs:15-17 | Every password the form accepts passes the service's password rules. |
| ClientModels.ClientRegisterPassesServer | Client/MVCApplication/Models/RegisterViewModel.cs:7-17 | Every registration form the client accepts passes `RegisterCommandValidator`. |
| ClientModels.ServerPasswordFailsClient | Client/MVCApplication/Models/RegisterViewModel.cs:17 | The converse fails: a password with a line feed passes the service but not the form's pattern. |
| ClientModels.RegisterViewModelValid | Client/MVCApplication/Models/RegisterViewModel.cs:7-18 | The registration form: a required name of at most 50 characters, a required e-mail address, and a required password of 8 to 100 characters matching the strength pattern. |
| ClientModels.UpdateFileViewModelValid | Client/MVCApplication/Models/UpdateFileViewModel.cs:9-21 | The edit form: a required name of at most 255 characters, a description of at most 1000, a required visibility, and a required permission (non-nullable `string`). |
| ClientModels.UpdateFormIgnoresShareFields | Client/MVCApplication/Models/UpdateFileViewModel.cs:19-21 | The id and the id list play no part in the form's check. A null or blank permission fails it, whatever the other fields hold. |
| ClientModels.ServerUpdatePassesClient | Client/MVCApplication/Models/UpdateFileViewModel.cs:9-21 | An update the service's validator accepts passes the form exactly when it carries a permission. |
| ClientModels.ServerAcceptsFormRejects | Client/MVCApplication/Models/UpdateFileViewModel.cs:21 | A private update with no id list and no permission passes the service but fails the form. |
| ClientModels.FormVisibilityUnchecked | Client/MVCApplication/Models/UpdateFileViewModel.cs:16-17 | The form requires a visibility but checks no value: "public" passes the form and fails the service. |

## Left out

- JWT creation, signing and verification, and BCrypt. The JWT library's verdict on signature, issuer and audience is the `validate` parameter, and password verification and hashing are parameters. Only the token's claims and its lifetime check (zero clock skew) are modelled. The token's `nbf` check is not modelled.
- `Guid.NewGuid()`, `DateTime.UtcNow` and the database's identity column are parameters. An unused refresh token and an unused id are preconditions, as the system trusts them to be.
- The file-storage service's handlers (upload, download, delete) do file-system I/O and are not modelled. `UploadFileRequestValidator` is not modelled: its rules sit in a constructor that reads a configuration field no constructor sets, and the storage service runs no validators.
- Controllers, the client's HTTP calls, cookies, views and logging are not modelled. Nor is `Program.cs` wiring; the backends switch off JWT validation and trust the gateway, so identity is a trusted parameter here.
- Concurrency is not modelled: requests run one at a time, and refresh's read-then-write is not checked for races.
- Database outages are not modelled. `SaveFailed` covers only the constraints the model knows: a null name or e-mail, a share row with a null permission (the `Permission` column is NOT NULL), and one user shared twice with a file.
- Column types are not modelled. A later migration turns the share permission into an integer column while the entity keeps a string, so the permission stays text.
- FileMapping.FromDto: a DTO without a name has no record, because a record cannot hold a null name, while AutoMapper builds a `File` whose `Name` is null. No handler uses this map.
- A null share list in a command is not modelled; the lists are sequences.
- The `FileShare` entity declares an `Id` (APIs/FileMetadataAPI/Models/FileShare.cs, line 5). The migrations create the table with no `Id` column and with the composite primary key (FileId, UserId) (APIs/FileMetadataAPI/Migrations/20250521084737_InitialCreate.cs, line 42). The model follows the migrations: the key is the pair, and a user shared twice with one file fails to save.
- FileModel.ParseVisibility: numeric and flag forms such as "2" or "Private, Public" are not modelled; those would also pass the visibility rule.
- FileValidators.VisibilityRuleMeans: stated over the three member names only, for the same reason.
- FileValidators.ValidUpdateSharesIffShared: the if-and-only-if holds only for text without white space at its ends, because the validator's guards compare the raw text; see Findings.
- FileStore.ValidatedUpdateKeepsSharesConsistent: stated for the corrected validator `UpdateFileCommandValidIntended`, because the validator as written lets " Shared " through with no shares; see Findings.
- ClientModels.UpdateFileViewModelValid: the implicit `[Required]` on `Permission` assumes the client is built with nullable reference types enabled; its project file is not part of this model.
- The result of `GetFilesQueryHandler` is a list in database order. The model gives it as a map from id to DTO, because the query fixes no order.
- `Enum.Parse` and `Enum.TryParse` also accept numbers and comma-separated flag lists. Only the three names are modelled.
- `int.Parse` and `int.TryParse` also accept surrounding white space and the current culture's sign symbols. Only an optional '+' or '-' followed by ASCII digits within Int32 is modelled.
- Case folding is ASCII-only: `OrdinalIgnoreCase`, `ToLowerInvariant` and `char.ToUpper` are not modelled beyond A-Z. White space is the full `char.IsWhiteSpace` set. Lengths are counted in characters, not UTF-16 code units.
- The gateway's path test uses culture-sensitive `StartsWith`; it is modelled as ordinal.
- An exception thrown by the next stage of the gateway's pipeline is caught by the middleware's own handler. That 403/500 rewrite is not modelled.
- `StringExtensions.ToUpperFirstIdempotent`: stated over the ASCII `char.ToUpper` only, because full Unicode upper-casing (title-case letters, culture rules) is not modelled.
- `FileStore.ListFiles`, `FileStore.FindFile`, `FileStore.FileStore.Create`: `GetFilesQueryHandler` reports a malformed id claim with its own exception, while the other two let `int.Parse` throw a `FormatException`. All three are shown as `MalformedUserClaim`.
- `AuthService.UserTable.Login`: a null e-mail matches no row (the column is not nullable); the model shows that as `InvalidCredentials`, as the handler does.
- The access token in a login or refresh result is shown by its claims, not by its signed text, which is never empty.
- `FileStore.FileStore.Update`: sets `IsOwner` on the returned DTO, a member the DTO type does not declare; the model's DTO has no `IsOwner`.
- `AuthService.UserTable.Register` models both copies of the registration handler. One maps the command with AutoMapper; the other builds the user by hand. Both store the same columns.

## Findings

| source | as written | input that shows it | evidently intended | confidence | as-written member | corrected member |
|---|---|---|---|---|---|---|
| APIs/FileMetadataAPI/Validators/UpdateFileCommandValidator.cs:22-29 | The visibility rule accepts text with white space around a member name, because `Enum.TryParse` trims; the two share-list guards compare the raw text with "Private", "Public" and "Shared". | `UpdateFileCommand` with id 1, name "a", visibility " Shared " and no shares: it passes, and the update stores a `Shared` file shared with nobody. | The guards test the visibility the update stores, so a file is `Shared` exactly when it has shares. | medium, not executed | FileStore.PaddedSharedUpdateStoresNoShares | FileStore.ValidatedUpdateKeepsSharesConsistent |
