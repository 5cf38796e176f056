# Secrets Manager configuration loader — Dafny model

This project models the configuration loader of `aws-secrets-manager-config`
(`conf/conf.go`). `Parse` fills a Go struct from two sources. First it reads one
secret from AWS Secrets Manager, which must be a JSON object of strings. Each
settable string field with a `secret:"<key>"` tag receives that key's value. A
tagged field that cannot be set (unexported) is skipped silently. A tagged
non-string field, or a tag that is not a key of the secret, stops the call with
an error. Then the struct goes to `env.Parse`, which binds the fields tagged
`env`.

The model leaves out reflection. The struct is an ordered `seq<Field>`. Each
field has a name, its `secret` tag (`""` when it has none), reflect's `CanSet`
flag and its value; the value's constructor is the field's kind. Because Go
updates the struct in place, every call returns an `Outcome`: the struct as the
call leaves it, plus the returned error (`None` for nil). This lets the proofs
say what a failed call has already assigned.

Modules, one per concern:

- `Wrappers`: `Option` and `Result`.
- `Errors`: the error taxonomy and the exact message text of each error the
  loader raises itself.
- `Fields`: field descriptors and `Outcome`.
- `SecretPass`: the secret-binding loop. It is written both as a pure
  recursive function and as the indexed in-place loop `Parse` runs, and the two are
  proved equal.
- `Conf`: `fetchAWSSecret` and `Parse`. The Secrets Manager client,
  `json.Valid`/`json.Unmarshal` and `env.Parse` are function parameters.

`conf/conf.go` implements one strategy: a single shared JSON secret, looked
up per tag. The loader's test file (`conf/conf_test.go`) calls a different
`Parse(&cfg, secretsManager)` signature. That version fetches each tagged
field's secret separately, decodes JSON secrets into nested structs and
reports an "[ApiKey]"-style incompleteness error. `conf/conf.go` contains none
of this, so the model follows `conf/conf.go`. Its errors are plain Go errors
with fixed texts, not named error kinds.

## Model

| member | source | states |
|---|---|---|
| Errors.Message | conf/conf.go:26-47 | the text each error carries: a collaborator's error keeps its own text; the not-JSON error is "expected a JSON payload. Plaintext secrets are not currently supported"; the missing-secret message is the tag between "required secret '" and "' is not set"; the incorrect-type message is the tag between "incorrect type. Expected a string for field '" and "'" |
| Errors.MessageIdentifiesError | conf/conf.go:26-47 | the messages of the not-JSON, missing-secret and incorrect-type errors (and of the nil-pointer panic) are pairwise distinct, and a per-field message determines its tag |
| SecretPass.FieldError | conf/conf.go:40-48 | a failing field reports a missing secret exactly when its key is absent, whatever its kind; it reports the type error only when the key is present and the field is not a string; both name the tag |
| SecretPass.Assign | conf/conf.go:49-51 | a visited field keeps its name, tag, settability and kind; a settable tagged field receives its secret; a non-settable or untagged field is left exactly as it was |
| SecretPass.FirstFailure | conf/conf.go:36-48 | returns the index of the first field, in declaration order, that stops the loop: every earlier field passes, and the field at that index fails (or the index is the field count) |
| SecretPass.BindSecrets | conf/conf.go:36-53 | fields before the first failing one are assigned; the failing field and all later ones are untouched; the error is the failing field's (nil if none fails); untagged fields never change; a changed field is a settable tagged string field now holding its secret |
| SecretPass.BindSecretsDetermined | conf/conf.go:36-53 | any struct state and error that match the pass's characterisation (assigned before the first failing field, untouched from it on, that field's error) are exactly the pass's result |
| SecretPass.BindSecretsInPlace | conf/conf.go:36-53 | the indexed in-place loop, with its key check before its type check, its in-place assignment guarded by settability and its early returns, ends in exactly the struct state and error of the pure pass; this ties the pass's stop condition to the if-chain of the Go loop |
| SecretPass.StopsAt | conf/conf.go:36-53 | a failing field reached with every earlier field passing is where the pass stops: its error is returned and it and every later field are left as they were |
| SecretPass.MissingKeyBeforeType | conf/conf.go:40-43 | when the first failing field's key is absent, the pass fails with "required secret" naming that tag, even if the field is not a string, and nothing from that field on changes |
| SecretPass.IncorrectTypeWhenKeyPresent | conf/conf.go:45-48 | when the first failing field's key is present but the field is not a string, the pass fails with the incorrect-type error naming that tag, and nothing from that field on changes |
| SecretPass.SuccessAssignsSecrets | conf/conf.go:36-53 | the pass succeeds if and only if no field fails; on success each settable tagged field holds its secret and every other field is unchanged |
| SecretPass.FirstFailureByShape | conf/conf.go:36-48 | which field stops the pass depends only on each field's tag and kind, never on its current value |
| SecretPass.BindSecretsIdempotent | conf/conf.go:36-53 | running the pass again on its own result with the same secrets gives the same struct and the same error |
| Conf.FetchAWSSecret | conf/conf.go:58-67 | asks the client for the secret whose id is the key; returns the client's error unchanged, or the secret string; an answer with a nil secret string yields `NilSecretString` (the panic), which is the only failure the function produces itself |
| Conf.Parse | conf/conf.go:19-56 | an error the loader raises itself leaves the field count and every untagged field unchanged; a not-JSON error or a nil-secret panic leaves the whole struct unchanged (that the binder's errors arrive only as `External` is proved by `Conf.SuccessDelegatesToEnv`) |
| Conf.FetchErrorPassesThrough | conf/conf.go:20-23 | if the fetch fails, Parse returns that same error and the struct is unchanged |
| Conf.NilSecretStringPanics | conf/conf.go:62-66 | an answer without a secret string ends the call with the nil-pointer panic before any field is touched |
| Conf.NotJsonRejected | conf/conf.go:24-27 | if the fetched secret is not valid JSON, Parse fails with the not-JSON error and the struct is unchanged, whatever tags the struct has |
| Conf.DecodeErrorPassesThrough | conf/conf.go:29-33 | if the JSON does not decode into a string map, Parse returns the decoder's error and the struct is unchanged |
| Conf.SecretFailureSkipsEnv | conf/conf.go:36-55 | if some field fails, Parse's outcome is the secret pass's partial state and error, and it does not depend on the environment binder |
| Conf.SuccessDelegatesToEnv | conf/conf.go:49-55 | if every tagged field binds, Parse returns what the environment binder makes of the struct with each settable tagged field set to its secret |
| Conf.EnvReachedOnlyAfterSecrets | conf/conf.go:19-55 | if two environment binders give different outcomes, then the fetch succeeded, the secret was valid JSON, it decoded, and no field failed |

## Left out

- The AWS SDK call and its request construction (`conf/conf.go:58-62`) are the `SecretsManager` function parameter. The request is modelled only by its secret id.
- `json.Valid` and `json.Unmarshal` (`conf/conf.go:25-33`) are the `Json` parameter: a validity predicate and a decoder that may fail. The model does not define JSON syntax.
- `env.Parse` (`conf/conf.go:55`) is the `EnvBinder` parameter. It returns the struct it leaves behind and its error; the model treats that error as an opaque message.
- Errors from collaborators are kept as their message text (`External`), not as Go error values with identity.
- Reflection (`conf/conf.go:35-38,45`) is replaced by the explicit field list. The model takes no `interface{}` argument, so the panic reflect raises when that argument is not a pointer to a struct is not modelled. `IsValid` is always true for a field of a struct value, so it is not modelled separately. `settable` stands for `CanSet`, which is false exactly for unexported fields. Nested and embedded structs count as single fields of a non-string kind, as reflect's top-level field walk sees them.
- Conf.FetchAWSSecret: a nil `SecretString` is a nil-pointer panic in `fetchAWSSecret`. The model returns it as the distinct terminal error `NilSecretString`, not as a crash.
- A typed nil pointer passed as `x` is not modelled: `reflect.ValueOf(x).Elem().Field(i)` (`conf/conf.go:45`) panics as soon as a tagged field's key is present, and the field list cannot represent a missing struct.
- `GetSecretValue` returning neither an answer nor an error (`nil, nil`) is not modelled: `conf/conf.go:66` then dereferences a nil `output` and panics, but the `SecretsManager` parameter always yields one or the other.
- The `go:generate` mock directive (`conf/conf.go:15`) is build tooling.
- The per-field-fetch strategy, nested-struct decoding and the incompleteness error exercised by `conf/conf_test.go` are absent from `conf/conf.go`, and so from the model.
