# dndcomhoy core in Dafny

This project models the back end of *dndcomhoy* in Dafny. *dndcomhoy* is a directory of
family-friendly restaurants, served as an Express API over a Prisma store. The model covers:

- the two request validators (`validarRestaurante`, `validarSugerencia`);
- the restaurant and suggestion services and controllers, including the approval workflow that
  turns a suggestion into a restaurant;
- the admin controller (login, registration, listing, update, removal);
- the JWT authentication middleware.

Facts about JavaScript the model relies on:

- Request bodies and replies are JSON values. An absent key reads as `undefined`.
- Truthiness is JavaScript's.
- Prisma ignores an `undefined` member of `data`.
- `parseInt` and `Number` are modelled apart: `"12abc"` is 12 to one and `NaN` to the other.
- `String.prototype.replace` with a string replacement interprets `$` patterns.
- `split(" ")[1]` is what the middleware reads as the token.

The module layout:

- `Store.Db` is the persistent state: three tables (restaurants, suggestions, admins) of rows keyed
  by an auto-increment id, each with its own id counter.
  - `Db.Valid` is the invariant every operation keeps: ids below the counter, no `undefined`
    column, and the unique columns `Restaurante.slug` and `Admin.email` unique.
  - Each store call takes an optional injected failure. A missing row on update or delete is
    Prisma's P2025, and a unique conflict is P2002.
- The services wrap each store call in `try`/`catch` and rethrow a new `Error` whose message has a
  prefix and no code.
  - So the suggestion controller's `error.code === "P2025"` branches can never fire, and a missing
    suggestion on update or delete is answered 500. `SugerenciaController.ActualizarSugerencia`
    and `SugerenciaController.EliminarSugerencia` state this as `reply.status != 404`.
  - The restaurant and admin controllers call Prisma directly and do answer 404.
- The approval looks up the suggestion, creates the restaurant, and then deletes the suggestion.
  These writes are not transactional. `SugerenciaController.AprobarSugerencia` states what each
  of the three store failures leaves behind.
- The restaurant routes call the restaurant controller, which talks to Prisma itself; of the
  restaurant service only `crear` is reached, through the approval. The whole service is modelled.
- Calls into code this repository does not contain (`slugify`, `bcrypt.hash`/`compare`,
  `jwt.sign`/`verify`, `Math.random`) are function or value parameters of the handlers.

Retrying a half-done approval does not duplicate the restaurant. `obtenerPorSlug` looks
restaurants up with `findUnique` on `slug`, so the slug column is a unique index. A retry after
a failed delete derives the same slug and is refused with P2002, so the caller gets a 500 and
nothing changes. `SugerenciaController.RetriedApprovalClashes` proves the clash, and
`SugerenciaController.RetryNotApprovable` with `SugerenciaController.AprobarSugerencia` carries it
to the handler's reply.

## Model

| member | source | states |
|---|---|---|
| Checks.FirstNonBoolean | src/middlewares/validarRestaurante.js:86-97 | the loop over the boolean fields finds no field, exactly when every field is absent, a boolean, "true" or "false"; otherwise it finds the first one that is not |
| Checks.FirstFailureUnique | src/middlewares/validarRestaurante.js:29-97 | only one guard can be the first to fail |
| Checks.FollowsDeterministic | src/middlewares/validarRestaurante.js:29-99 | the guard list fixes the validator's answer for every body |
| Checks.AnswerWithin | src/middlewares/validarRestaurante.js:29-49 | when one of the first n guards fails, the answer is one of theirs |
| Checks.Then3 | src/middlewares/validarSugerencia.js:13-91 | running three groups of guards one after the other, each only when the previous let the body through, answers like the concatenated list |
| Checks.UncheckedFieldIrrelevant | src/middlewares/validarRestaurante.js:29-97 | a field no guard reads never changes the answer |
| ValidarRestaurante.CheckRequired | src/middlewares/validarRestaurante.js:29-49 | the five required-field guards, in order, each rejecting a falsy value with that field's 400 message |
| ValidarRestaurante.CheckTypes | src/middlewares/validarRestaurante.js:50-64 | phone and e-mail, when truthy, must be strings; images, when truthy, must be an array |
| ValidarRestaurante.Validar | src/middlewares/validarRestaurante.js:1-100 | the middleware answers as the first failing guard of the 24, in source order, or calls `next` |
| ValidarRestaurante.RuleAt | src/middlewares/validarRestaurante.js:29-97 | position of each guard in the 24: required fields, then type guards, then the 16 boolean guards |
| ValidarRestaurante.FirstMissingFieldReported | src/middlewares/validarRestaurante.js:29-49 | the first falsy required field is the one reported |
| ValidarRestaurante.MissingFieldBeatsTypeErrors | src/middlewares/validarRestaurante.js:29-64 | any missing required field is reported before every type error |
| ValidarRestaurante.OptionalStringGuardsDecide | src/middlewares/validarRestaurante.js:29-59 | the phone guard answers the request exactly when the required fields are present and the phone is truthy and not a string; the e-mail guard exactly when, besides, the phone is fine and the e-mail is truthy and not a string; each with its own message |
| ValidarRestaurante.LocalidadUnchecked | src/middlewares/validarRestaurante.js:2-27 | `localidad` is never checked, so its value never changes the answer |
| ValidarRestaurante.ArrayOfNonStringsAccepted | src/middlewares/validarRestaurante.js:60-64 | every array, whatever its elements, passes every guard that reads the images, despite the message asking for strings |
| ValidarRestaurante.FirstBadFlagReported | src/middlewares/validarRestaurante.js:86-97 | once the other guards pass, the first non-boolean flag is the one reported |
| ValidarSugerencia.CheckRequired | src/middlewares/validarSugerencia.js:13-25 | the three trimmed required-field guards, a non-string value throwing |
| ValidarSugerencia.CheckTypes | src/middlewares/validarSugerencia.js:28-58 | the optional string, images-array, all-strings and estado guards in order |
| ValidarSugerencia.Validar | src/middlewares/validarSugerencia.js:1-92 | the middleware answers as the first failing guard of the 22, in source order, or calls `next` |
| ValidarSugerencia.RuleAt | src/middlewares/validarSugerencia.js:13-89 | position of each guard in the 22 |
| ValidarSugerencia.FirstMissingFieldReported | src/middlewares/validarSugerencia.js:13-25 | the first missing required field is reported, and white space alone counts as missing |
| ValidarSugerencia.NonStringNameIsServerError | src/middlewares/validarSugerencia.js:13 | a number, boolean, array or object name makes `trim` throw: an uncaught error, not a 400 |
| ValidarSugerencia.ImagesReported | src/middlewares/validarSugerencia.js:40-53 | a truthy non-array gets the array message; an array holding a non-string gets the strings message |
| ValidarSugerencia.EstadoReported | src/middlewares/validarSugerencia.js:56-58 | a truthy non-string `estado` is reported once the earlier guards pass |
| ValidarSugerencia.UncheckedAreNotRead | src/middlewares/validarSugerencia.js:2-10 | no guard reads the location and contact fields |
| ValidarSugerencia.UncheckedFieldsIgnored | src/middlewares/validarSugerencia.js:2-89 | those fields never change the answer |
| JsString.TrimEmptyIffBlank | src/middlewares/validarSugerencia.js:13 | `s.trim()` is empty exactly when `s` is white space only |
| JsString.ParseIntReads | src/controllers/restaurante.controller.js:93 | `parseInt` skips leading white space and reads an optional sign and the leading digits, ignoring what follows |
| JsString.ParseIntNaN | src/controllers/restaurante.controller.js:93 | with no digit after the white space and sign, `parseInt` is NaN |
| JsString.ToNumberAgreesWithParseInt | src/services/sugerencia.service.js:68-76 | wherever `Number` gives an integer for a non-blank string, `parseInt` gives the same one |
| JsString.TrailingJunkSplitsTheConversions | src/controllers/sugerencia.controller.js:112-117 | "12abc" passes the controller's `parseInt` guard but is not a number to the service's `Number` |
| JsString.JoinSplit | src/middlewares/auth.middleware.js:13 | joining the pieces of `split` gives the string back |
| JsString.SplitJoin | src/middlewares/auth.middleware.js:13 | splitting a join of separator-free pieces gives the pieces back |
| JsString.IndexFrom | src/controllers/sugerencia.controller.js:16 | the index found is an occurrence, and no earlier one exists |
| Store.Db.constructor | src/services/restaurante.service.js:2 | a fresh store is valid, with empty tables and counters at 1 |
| Store.Db.Create | src/services/restaurante.service.js:14-20 | `create` stores the defined members under the next id exactly when no unique column clashes; on any error nothing changes |
| Store.Db.FindUnique | src/services/restaurante.service.js:103-111 | the row with that id, exactly when there is one |
| Store.Db.FindBy | src/services/restaurante.service.js:118-126 | a stored row holding that value in the column, or none exists |
| Store.Db.FindMany | src/services/restaurante.service.js:89-92 | the rows matching the filter, newest first |
| Store.Db.Update | src/services/restaurante.service.js:141-148 | merges the defined members into the row; P2025 for a missing id, P2002 on a clash, nothing changed on error |
| Store.Db.Delete | src/services/restaurante.service.js:159-167 | removes and returns the row; P2025 for a missing id |
| Store.ListedAreStoredMatches | src/services/restaurante.service.js:89-92 | every listed row is stored and matches the filter |
| Store.ListedComplete | src/services/restaurante.service.js:89-92 | every stored matching row is listed |
| Store.ListedDescending | src/services/restaurante.service.js:91 | the listing is in strictly decreasing creation order, without repeats |
| Store.UniqueHolder | src/services/restaurante.service.js:118-126 | at most one row holds a given value of a unique column |
| Store.InsertKeepsTableValid | src/services/restaurante.service.js:14-20 | inserting a non-clashing row under the counter keeps the table valid |
| Store.ReplaceKeepsTableValid | src/services/restaurante.service.js:141-148 | replacing a row with a non-clashing one keeps the table valid |
| Slug.SlugPatch | src/services/restaurante.service.js:136-145 | the slug member is set exactly when `nombre` is a non-empty string whose slug is non-empty, and is then that slug |
| Filtros.BuildFiltros | src/controllers/restaurante.controller.js:44-75 | the twenty guards build exactly the filter the query specifies |
| Filtros.FilterPresentIffTruthy | src/services/restaurante.service.js:56-87 | a key is filtered exactly when it is one of the twenty and its query value is non-empty |
| Filtros.TextFilterContains | src/services/restaurante.service.js:58-64 | a text parameter filters by case-insensitive containment of its value |
| Filtros.FlagFilterValue | src/services/restaurante.service.js:67-87 | a flag parameter filters by equality with whether it is "true" |
| Filtros.FalseStringFiltersFalse | src/services/restaurante.service.js:86 | `?activo=false` selects the inactive restaurants |
| Filtros.UnknownParametersIgnored | src/services/restaurante.service.js:33-54 | parameters outside the twenty names never reach the filter |
| Filtros.MatchesFilters | src/services/restaurante.service.js:56-92 | a row is listed exactly when it satisfies every active parameter's condition |
| RestauranteService.CrearData | src/services/restaurante.service.js:14-20 | the record is the data with the computed slug and an array of images (the given one, else empty) |
| RestauranteService.CrearOverridesSlug | src/services/restaurante.service.js:16-17 | a slug sent by the caller never reaches the record |
| RestauranteService.CrearStoresSlugAndImages | src/services/restaurante.service.js:17-18 | the stored restaurant always has its slug and an image array |
| RestauranteService.Crear | src/services/restaurante.service.js:10-24 | a non-string name fails in `slugify`; otherwise the record is stored exactly when no slug clash occurs; errors lose their code |
| RestauranteService.ObtenerTodos | src/services/restaurante.service.js:31-96 | the restaurants the query's filter admits, newest first |
| RestauranteService.ObtenerPorId | src/services/restaurante.service.js:103-111 | the row under `Number(id)`, null when absent, an error for a non-numeric id |
| RestauranteService.ObtenerPorSlug | src/services/restaurante.service.js:118-126 | the restaurant with that slug, or null when none has it |
| RestauranteService.ActualizarData | src/services/restaurante.service.js:136-147 | the patch applies a fresh slug only for a renaming, images only when an array, every other field as given |
| RestauranteService.CallerSlugNeverApplied | src/services/restaurante.service.js:143-147 | a slug sent by the caller is never applied |
| RestauranteService.UpdatedSlug | src/services/restaurante.service.js:136-147 | after an update the slug is the new name's slug when renamed, else unchanged |
| RestauranteService.UpdatedImages | src/services/restaurante.service.js:143-147 | images change only when an array is given |
| RestauranteService.UpdatedOtherField | src/services/restaurante.service.js:143-147 | a field left undefined keeps its value; a defined one takes the new value |
| RestauranteService.Actualizar | src/services/restaurante.service.js:134-152 | an existing row under `Number(id)` is merged with the patch exactly when no slug clash occurs (P2002 otherwise); errors for a bad id or missing row; errors lose their code and change nothing |
| RestauranteService.Eliminar | src/services/restaurante.service.js:159-167 | removes and returns the row exactly when it exists |
| RestauranteController.FailureReply | src/controllers/restaurante.controller.js:104-110 | 404 exactly for P2025, else 500 with the handler's message |
| RestauranteController.CrearRestaurante | src/controllers/restaurante.controller.js:5-16 | stores the body as given (no slug) and answers 201 with the row, exactly when no unique conflict or fault; 500 otherwise |
| RestauranteController.ObtenerRestaurantes | src/controllers/restaurante.controller.js:19-87 | the rows the filter admits, newest first, or 500 |
| RestauranteController.ActualizarRestaurante | src/controllers/restaurante.controller.js:90-111 | 400 for a non-integer id; 404 for a missing row; otherwise the merged row, or 500 on a clash |
| RestauranteController.EliminarRestaurante | src/controllers/restaurante.controller.js:114-134 | confirms exactly when the row existed and removes it; 400 / 404 / 500 otherwise |
| SugerenciaService.FlagsAreAmenities | src/services/sugerencia.service.js:26-40 | the flags the service stores are exactly the amenities the validator checks |
| SugerenciaService.GroupsDisjoint | src/services/sugerencia.service.js:16-41 | no field is copied, nulled and defaulted at once |
| SugerenciaService.SugerenciaData | src/services/sugerencia.service.js:14-43 | exactly the listed fields: some copied, optional ones null when falsy, flags false when falsy, plus the slug |
| SugerenciaService.RecordReadsColumns | src/services/sugerencia.service.js:14-43 | the record depends only on the listed fields |
| SugerenciaService.OtherKeysDropped | src/services/sugerencia.service.js:14-43 | a key outside the listed fields never reaches the store |
| SugerenciaService.FalseStringFlagKept | src/services/sugerencia.service.js:26-40 | a flag sent as "false" is truthy and stored as that string |
| SugerenciaService.CrearSugerencia | src/services/sugerencia.service.js:10-47 | stores the record under the next id exactly when the name is a string and the store does not fail |
| SugerenciaService.ObtenerSugerencias | src/services/sugerencia.service.js:53-61 | every suggestion, newest first |
| SugerenciaService.ObtenerPorId | src/services/sugerencia.service.js:68-76 | the row under `Number(id)`, null when absent |
| SugerenciaService.ActualizarData | src/services/sugerencia.service.js:86-96 | the patch applies a fresh slug only for a renaming, every other field as given |
| SugerenciaService.CallerSlugNeverApplied | src/services/sugerencia.service.js:93-96 | a slug sent by the caller is never applied |
| SugerenciaService.UpdatedSlug | src/services/sugerencia.service.js:86-96 | after an update the slug is the new name's slug when renamed, else unchanged |
| SugerenciaService.UpdatedOtherField | src/services/sugerencia.service.js:93-96 | a field left undefined keeps its value |
| SugerenciaService.ActualizarSugerencia | src/services/sugerencia.service.js:84-101 | merges the patch into the row exactly when it exists; errors lose their code |
| SugerenciaService.Eliminar | src/services/sugerencia.service.js:108-116 | removes and returns the row exactly when it exists |
| SugerenciaController.TemplateShape | src/controllers/sugerencia.controller.js:6-12 | every template is a text with no `{`, the placeholder, and a rest |
| SugerenciaController.Frase | src/controllers/sugerencia.controller.js:14-17 | the intended message: the template with the name in place of the placeholder |
| SugerenciaController.FraseNamesTheRestaurant | src/controllers/sugerencia.controller.js:14-17 | the intended message always contains the name |
| SugerenciaController.FraseAleatoriaWithoutDollar | src/controllers/sugerencia.controller.js:14-17 | for a name without `$`, the code as written gives the intended message |
| SugerenciaController.DollarAmpersandLosesTheName | src/controllers/sugerencia.controller.js:16 | for the name "A$&B" the message as written does not contain the name |
| SugerenciaController.GuardIsFaltanCampos | src/controllers/sugerencia.controller.js:49-59 | the seven-way guard is exactly "some required field is falsy" |
| SugerenciaController.ForwardedAreTheServiceColumns | src/controllers/sugerencia.controller.js:61-85 | the forwarded fields are exactly the fields the service stores |
| SugerenciaController.ForwardingKeepsTheRecord | src/controllers/sugerencia.controller.js:61-85 | forwarding those fields stores the same suggestion as passing the whole body |
| SugerenciaController.CrearSugerencia | src/controllers/sugerencia.controller.js:20-96 | 400 for a missing field; 201 with the message as written (`fraseAleatoria` of the stored name) and the stored row exactly when the name is a string and the store succeeds; 500 otherwise |
| SugerenciaController.ObtenerSugerencias | src/controllers/sugerencia.controller.js:99-107 | every suggestion, newest first, or 500 |
| SugerenciaController.ObtenerSugerenciaPorId | src/controllers/sugerencia.controller.js:110-126 | 400 for a non-integer id, 404 for an absent row, the row, or 500 when `Number` rejects the id |
| SugerenciaController.FailureReply | src/controllers/sugerencia.controller.js:141-147 | 404 exactly for P2025, else 500 |
| SugerenciaController.ActualizarSugerencia | src/controllers/sugerencia.controller.js:129-148 | never 404: a missing suggestion is a 500; otherwise the merged row |
| SugerenciaController.EliminarSugerencia | src/controllers/sugerencia.controller.js:151-167 | never 404; confirms exactly when the suggestion existed and removes it |
| SugerenciaController.ApprovalData | src/controllers/sugerencia.controller.js:182-202 | the approval copies name, address, description and the amenities, and sets both status flags |
| SugerenciaController.ApprovalLeavesLocationBehind | src/controllers/sugerencia.controller.js:182-202 | city, province, locality and the contact data are not copied |
| SugerenciaController.AprobarSugerencia | src/controllers/sugerencia.controller.js:170-214 | 201 only after the restaurant was created and the suggestion removed; a failed lookup or a failed create (fault, non-string name, slug clash) answers 500 and changes nothing; a failed delete answers 500 and leaves both; 400 / 404 otherwise |
| SugerenciaController.RetriedApprovalClashes | src/controllers/sugerencia.controller.js:182-204 | once an approved restaurant is stored, approving the same suggestion again clashes on the slug |
| SugerenciaController.RetryNotApprovable | src/controllers/sugerencia.controller.js:177-204 | while the suggestion is still stored next to the restaurant its approval created, it is not approvable, so a second approval answers 500 and changes nothing |
| Jwt.Secret | src/controllers/admin.controller.js:6 | the environment's key when set and non-empty, else "supersecretkey"; never empty |
| AdminController.LoginReply | src/controllers/admin.controller.js:18-39 | 200 with a token exactly for an active admin whose password matches; 403 exactly for an inactive one; 401 or 500 otherwise |
| AdminController.UnknownLooksLikeWrongPassword | src/controllers/admin.controller.js:20-31 | an unknown e-mail and a wrong password get the same 401 |
| AdminController.InactiveBeforePassword | src/controllers/admin.controller.js:24-26 | an inactive account gets 403 whatever password is given |
| AdminController.Login | src/controllers/admin.controller.js:8-44 | 400 without e-mail or password, 500 on a store fault, 401 for an unknown e-mail, else the reply for the account holding it |
| AdminController.TokenNamesTheAccount | src/controllers/admin.controller.js:33-37 | the token names the account by id and e-mail, and nothing else |
| AdminController.AdminRecord | src/controllers/admin.controller.js:65-72 | the new admin has e-mail, hashed password, name and status, none undefined |
| AdminController.RegisterDefaults | src/controllers/admin.controller.js:47-72 | a falsy e-mail or name is stored as null; an omitted status is active |
| AdminController.FreshEmailNoClash | src/controllers/admin.controller.js:56-72 | an unused or falsy e-mail cannot clash on the unique index |
| AdminController.Register | src/controllers/admin.controller.js:46-81 | 400 when incomplete, 409 exactly for a taken e-mail, 201 with the new id exactly when stored, 500 otherwise |
| AdminController.Public | src/controllers/admin.controller.js:85-94 | an admin is shown with id, e-mail, name and status, never the password |
| AdminController.PublicRows | src/controllers/admin.controller.js:83-100 | the list shows every admin in order without passwords |
| AdminController.ObtenerAdmins | src/controllers/admin.controller.js:83-100 | every admin without passwords, or 500 |
| AdminController.ObtenerAdminPorId | src/controllers/admin.controller.js:102-128 | 400 for a non-integer id, 404 for an absent one, else the admin without password |
| AdminController.BuildPatch | src/controllers/admin.controller.js:137-143 | the patch is the draft with its undefined members deleted |
| AdminController.PatchContents | src/controllers/admin.controller.js:137-143 | the patch holds e-mail, name and status when defined, and the hash of a truthy password |
| AdminController.FailureReply | src/controllers/admin.controller.js:158-163 | 404 exactly for P2025, else 500 |
| AdminController.ActualizarAdmin | src/controllers/admin.controller.js:130-165 | 400 / 404 / 500, or the merged admin without password; a truthy non-string password is a 500 |
| AdminController.EliminarAdmin | src/controllers/admin.controller.js:167-184 | confirms exactly when the admin existed and removes it; 400 / 404 / 500 otherwise |
| AuthMiddleware.Request.constructor | src/middlewares/auth.middleware.js:5 | a request starts with its headers and no admin |
| AuthMiddleware.TokenOf | src/middlewares/auth.middleware.js:13 | the second piece of the header contains no space |
| AuthMiddleware.Decide | src/middlewares/auth.middleware.js:5-45 | admits only a verified token naming a stored active admin, recording its id and e-mail; otherwise 401, or 403 for an inactive one |
| AuthMiddleware.Authenticate | src/middlewares/auth.middleware.js:5-45 | calls `next` exactly when the decision admits, then sets `req.admin`; otherwise answers the decision's reply and leaves the request alone |
| AuthMiddleware.AnySchemeAccepted | src/middlewares/auth.middleware.js:13 | any first word before one space is accepted: the scheme is never checked |
| AuthMiddleware.BareTokenMalformed | src/middlewares/auth.middleware.js:13-16 | a header without a space is answered "Token mal formateado" |
| AuthMiddleware.DoubleSpaceMalformed | src/middlewares/auth.middleware.js:13 | two spaces after the scheme leave an empty token |
| AuthMiddleware.IssuedTokenAdmits | src/middlewares/auth.middleware.js:13-39 | a token login issued, sent back as "Bearer" and the token, admits the same admin while active |
| AuthMiddleware.DeactivatedLockedOut | src/middlewares/auth.middleware.js:31-33 | deactivating an account locks out every token naming it |

## Left out

- slugify: the `slugify` package is not part of this model; it is a function parameter that the model only calls on strings (a non-string name is the error `slugify` throws).
- bcrypt and jsonwebtoken are not part of this model: hashing, comparison, signing and verification are function parameters. Token expiry and the clock are not modelled; an expired token is one the verifier rejects.
- `Math.random` is the parameter `pick` that chooses the thank-you template.
- Logging, `async`/`await` scheduling and concurrency between requests are not modelled; every handler runs to completion on one store state.
- Routing (which middleware guards which path) and the Express error handler are not modelled, except that an exception in a validator is the `Uncaught` reply.
- Prisma's schema validation is not modelled: a value of the wrong type for a column, such as a non-string e-mail or an id beyond Int32 range, is stored like any other, and is looked up like any other. In the source, `findUnique` with a truthy non-string e-mail throws, so `login` and `register` answer 500 where the model answers 401 or 201.
- `createdAt`/`creadaEn` and `updatedAt` are not separate columns; creation order is the order of the auto-increment ids. So `AdminController.Public` shows id, e-mail, name and status but not the two timestamps the admin selects return.
- Store.Db.FindMany: `obtenerAdmins` gives no `orderBy`, so its order is not fixed by the source; the model lists admins newest first like the other tables.
- JsString.ToNumber: only optionally signed decimal integers with surrounding white space (and the blank string, which is 0) are numbers; forms like "1.0", "1e3" and "0x10" are treated as not an integer. Such ids make the service's store call fail (a 500) instead of being looked up.
- Filtros.BuildFiltros: query values are strings only (Express can also give arrays), and the twenty guards are written as a loop over the keys in source order.
- AuthMiddleware.Decide: a verified payload that is a string rather than an object is not modelled; the verifier returns object payloads only.
- JsString.Lower: Prisma's `mode: "insensitive"` comparison is modelled with ASCII-only case folding, so accented capitals are not folded: a stored "MÁLAGA" does not match `?ciudad=málaga` in the model, while it does in the source.
- Prisma's exact error messages are not modelled; only whether a call fails and with which code.

## Findings

| source | as written | input that shows it | evidently intended | confidence | as-written member | corrected member |
|---|---|---|---|---|---|---|
| src/controllers/sugerencia.controller.js:16 | `frase.replace("{nombre}", nombre)` passes the name as a replacement pattern, so `$&`, `$'`, `` $` `` and `$$` in it are expanded | the name "A$&B" gives a message holding "A{nombre}B" in place of the name | the name inserted verbatim, so that the message always names the restaurant | not executed | SugerenciaController.FraseAleatoria, SugerenciaController.DollarAmpersandLosesTheName | SugerenciaController.Frase, SugerenciaController.FraseNamesTheRestaurant |
