# Feedback form: validation and append, in Dafny

The application is a one-page feedback board. A process-wide list of feedback
entries starts with two seed entries. The page's loader returns that list. Its
form action reads a `title` and a `description` from the submitted form data. It
rejects the submission with per-field Portuguese error messages (status 400)
unless both fields are non-empty strings. Otherwise it appends
`{id: length + 1, title, description}` to the list and answers
`"Feedback criado com sucesso!"`.

The model is sequential and purely functional:

- `Validation` — `FormValue = Missing | NonString | Str(text)` is the outcome of
  reading one form field (absent, a file upload, or text). `Filled` is the
  acceptance condition. `FieldError` and `Validate` build the error record.
  `None` stands for TypeScript's `null`.
- `Feedback` — `Entry`, the list `Store = seq<Entry>`, the two-entry `Seed`, and
  the list invariant `Valid`: every entry's id is its position + 1, and every
  title and description is non-empty.
- `Routes` — `Loader` and `Action` (the response plus the list after the
  request), `Run` (a sequence of submissions handled in order), and the lemmas
  showing that every reachable list satisfies `Valid`.

The shared mutable list becomes an explicit parameter and result. The parsed
form fields become the two `FormValue` arguments: `body.get` returns `null` for
an absent field and a `File` for an upload, and the action rejects both
(app/routes/_index.tsx:35-36, 45, 49). The loader's
binding of the list is an `Option<Store>`. JavaScript's `!array` is false for
every array, even an empty one, so only an absent binding gives the not-found
answer, and a reachable list never does.

## Model

| member | source | states |
|---|---|---|
| Validation.FieldError | app/routes/_index.tsx:45-51 | A field's error slot is empty exactly when the field is a non-empty string, and otherwise holds the given message |
| Validation.Validate | app/routes/_index.tsx:34-51 | A submission passes exactly when both fields are non-empty strings. On rejection, the title slot holds "O título é obrigatório." exactly when the title is missing, not a string or empty, and otherwise it is null. The same holds for the description and "A descrição é obrigatória.". At least one slot is non-null |
| Feedback.SeedValid | app/routes/_index.tsx:5-18 | The two seed entries satisfy the list invariant: ids 1 and 2 at positions 0 and 1, and non-empty titles and descriptions |
| Feedback.ValidIds | app/routes/_index.tsx:32-59 | Under the invariant, ids strictly increase along the list, are pairwise distinct, and lie in 1..length, so the next id (length + 1) is not yet taken |
| Routes.Loader | app/routes/_index.tsx:20-26 | The loader answers "Lista não encontrada." with status 404 exactly when the list binding is absent. Otherwise it returns the list unchanged with status 200, even when the list is empty |
| Routes.Action | app/routes/_index.tsx:28-62 | Success happens exactly when both fields are non-empty strings. On success the data is "Feedback criado com sucesso!", the status is 200, and the list gains exactly one entry `{old length + 1, title, description}` at its end. On failure the status is 400, the list is unchanged, and each error slot holds its fixed message exactly when its field fails, with at least one slot set |
| Routes.ActionExtends | app/routes/_index.tsx:59 | After any request, the old list is a prefix of the new one. Its length grows by one when the submission is accepted and by zero otherwise |
| Routes.ActionPreservesValid | app/routes/_index.tsx:32-59 | One request, accepted or rejected, keeps the list invariant |
| Routes.Run | app/routes/_index.tsx:28-62 | After a sequence of requests, the list has grown by exactly the number of accepted submissions, so by at most one entry per request, and the starting list is a prefix of the result |
| Routes.RunPreservesValid | app/routes/_index.tsx:28-62 | By induction on the requests, any sequence of requests from a list satisfying the invariant ends in one that satisfies it |
| Routes.Reachable | app/routes/_index.tsx:5-62 | Every list reachable from the seed satisfies the invariant: ids are position + 1 and strictly increasing, and titles and descriptions are non-empty. The seed entries stay at the front, the length is 2 plus the number of accepted submissions and at most 2 plus the number of requests, and the loader returns that list and never the not-found answer |
| Routes.Scenarios | app/routes/_index.tsx:28-62 | Examples from a fresh process. "Hello"/"World" is accepted as entry 3. An empty title gets only the title error. Two empty fields get both errors. The loader returns the seed |

## Left out

- The `Home` React component and all markup (app/routes/_index.tsx:64-146): it is view rendering.
- Remix wiring: `json(...)`, response headers, `useLoaderData` and `useActionData` are framework calls. Only the HTTP status (404/400/200) is kept, as `Status()` on each response.
- `request.formData()` (app/routes/_index.tsx:29): the asynchronous parse of the request body is I/O. The model starts from its result.
- `body.get(...)` (app/routes/_index.tsx:30-31): a synchronous lookup in the parsed form data, which returns the first value when a field is repeated. The model takes that value as the `FormValue` argument and does not model repeated fields or the content of a `File`.
- Request ordering: the only `await` (app/routes/_index.tsx:29) comes before the length read at line 32, and nothing between that read and the `push` at line 59 yields. In one Node process each action therefore runs its read-validate-append without interleaving. `Run` covers every such schedule, with the requests ordered by when each handler resumes after `formData()`.
- Array length bound: a JavaScript array's length is capped at 2^32 − 1, and a `push` past it throws a `RangeError`. A Dafny `seq` has no such bound, so the model does not include that failure.
- String length: JavaScript counts UTF-16 code units and Dafny counts characters. Only whether a string is empty matters, and both agree on that.
