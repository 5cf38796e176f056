/**
 `Parse` and `fetchAWSSecret` (conf/conf.go:19-67): fetch one secret from
 AWS Secrets Manager, require it to be a JSON object of strings, bind every
 `secret`-tagged field from it, then hand the struct to the environment
 binder. The Secrets Manager client, the JSON library and the environment
 binder are foreign code and enter the model as function parameters.
 */
module Conf {
  import opened Wrappers
  import opened Errors
  import opened Fields
  import opened SecretPass

  /** The request `fetchAWSSecret` builds: the secret's id is the key. */
  datatype GetSecretValueInput = GetSecretValueInput(secretId: string)

  /** The part of the Secrets Manager answer the loader reads; `SecretString`
      is a pointer that is nil for a binary secret. */
  datatype GetSecretValueOutput = GetSecretValueOutput(secretString: Option<string>)

  /** The Secrets Manager client's `GetSecretValue`: an answer or an error. */
  type SecretsManager = GetSecretValueInput -> Result<GetSecretValueOutput, string>

  /** The two calls into `encoding/json`: `Valid`, and `Unmarshal` into a
      string-to-string map, which fails for instance on non-string values. */
  datatype Json = Json(valid: string -> bool, unmarshal: string -> Result<Secrets, string>)

  /** `env.Parse`: binds the remaining fields from the environment, in place,
      and returns its own error or nil. */
  type EnvBinder = seq<Field> -> (seq<Field>, Option<string>)

  /** Fetches the secret named `key`: the client's error is returned as is,
      and an answer is unwrapped to its secret string. */
  function FetchAWSSecret(manager: SecretsManager, key: string): (r: Result<string, Error>)
    ensures manager(GetSecretValueInput(key)).Failure? ==>
      r == Failure(External(manager(GetSecretValueInput(key)).error))
    ensures r.Success? <==>
      manager(GetSecretValueInput(key)).Success? && manager(GetSecretValueInput(key)).value.secretString.Some?
    ensures r.Success? ==> r.value == manager(GetSecretValueInput(key)).value.secretString.value
    ensures r.Failure? && r.error.Raised() ==> r.error == NilSecretString
    ensures manager(GetSecretValueInput(key)).Success? && manager(GetSecretValueInput(key)).value.secretString.None? ==>
      r == Failure(NilSecretString)
  {
    match manager(GetSecretValueInput(key))
    case Failure(cause) => Failure(External(cause))
    case Success(output) =>
      match output.secretString
      case None => Failure(NilSecretString)
      case Some(secret) => Success(secret)
  }

  /** Binds the `secret`-tagged fields from the JSON secret named
      `secretKey`, then the rest from the environment. An error the loader
      raises itself never comes from the environment binder, and it leaves
      every untagged field as it was. */
  function Parse(fields: seq<Field>, secretKey: string, manager: SecretsManager, json: Json, bindEnv: EnvBinder): (r: Outcome)
    ensures r.err.Some? && r.err.value.Raised() ==>
      && |r.fields| == |fields|
      && forall i :: 0 <= i < |fields| && !fields[i].Tagged() ==> r.fields[i] == fields[i]
    ensures r.err.Some? && (r.err.value.NotJson? || r.err.value.NilSecretString?) ==> r.fields == fields
  {
    match FetchAWSSecret(manager, secretKey)
    case Failure(e) => Outcome(fields, Some(e))
    case Success(secret) =>
      if !json.valid(secret) then Outcome(fields, Some(NotJson))
      else
        match json.unmarshal(secret)
        case Failure(cause) => Outcome(fields, Some(External(cause)))
        case Success(secrets) =>
          var pass := BindSecrets(fields, secrets);
          if pass.err.Some? then pass
          else
            var (bound, envErr) := bindEnv(pass.fields);
            Outcome(bound, if envErr.Some? then Some(External(envErr.value)) else None)
  }

  /** A Secrets Manager error is returned unchanged and no field is touched. */
  lemma FetchErrorPassesThrough(fields: seq<Field>, secretKey: string, manager: SecretsManager, json: Json, bindEnv: EnvBinder)
    requires manager(GetSecretValueInput(secretKey)).Failure?
    ensures Parse(fields, secretKey, manager, json, bindEnv)
      == Outcome(fields, Some(External(manager(GetSecretValueInput(secretKey)).error)))
  {
  }

  /** An answer without a secret string (a binary secret) crashes the call on
      the nil pointer before any field is touched. */
  lemma NilSecretStringPanics(fields: seq<Field>, secretKey: string, manager: SecretsManager, json: Json, bindEnv: EnvBinder)
    requires manager(GetSecretValueInput(secretKey)).Success?
    requires manager(GetSecretValueInput(secretKey)).value.secretString.None?
    ensures Parse(fields, secretKey, manager, json, bindEnv) == Outcome(fields, Some(NilSecretString))
  {
  }

  /** A secret that is not JSON is refused before any
      field is touched, and whatever tags the struct has. */
  lemma NotJsonRejected(fields: seq<Field>, secretKey: string, manager: SecretsManager, json: Json, bindEnv: EnvBinder)
    requires FetchAWSSecret(manager, secretKey).Success?
    requires !json.valid(FetchAWSSecret(manager, secretKey).value)
    ensures Parse(fields, secretKey, manager, json, bindEnv) == Outcome(fields, Some(NotJson))
  {
  }

  /** A JSON secret that does not decode into a string-to-string map ends the
      call with the decoder's error, before any field is touched. */
  lemma DecodeErrorPassesThrough(fields: seq<Field>, secretKey: string, manager: SecretsManager, json: Json, bindEnv: EnvBinder)
    requires FetchAWSSecret(manager, secretKey).Success?
    requires json.valid(FetchAWSSecret(manager, secretKey).value)
    requires json.unmarshal(FetchAWSSecret(manager, secretKey).value).Failure?
    ensures Parse(fields, secretKey, manager, json, bindEnv)
      == Outcome(fields, Some(External(json.unmarshal(FetchAWSSecret(manager, secretKey).value).error)))
  {
  }

  /** Once the secret decodes, a failing field ends the call with the secret
      pass's state and error, and the environment binder is never consulted:
      any other binder gives the same outcome. */
  lemma SecretFailureSkipsEnv(fields: seq<Field>, secretKey: string, manager: SecretsManager, json: Json,
                              bindEnv: EnvBinder, otherEnv: EnvBinder, secrets: Secrets)
    requires FetchAWSSecret(manager, secretKey).Success?
    requires json.valid(FetchAWSSecret(manager, secretKey).value)
    requires json.unmarshal(FetchAWSSecret(manager, secretKey).value) == Success(secrets)
    requires exists i :: 0 <= i < |fields| && Fails(fields[i], secrets)
    ensures Parse(fields, secretKey, manager, json, bindEnv) == BindSecrets(fields, secrets)
    ensures Parse(fields, secretKey, manager, json, bindEnv) == Parse(fields, secretKey, manager, json, otherEnv)
    ensures Parse(fields, secretKey, manager, json, bindEnv).err.Some?
  {
  }

  /** Once every tagged field binds, the call's outcome is exactly what the
      environment binder makes of the bound struct. */
  lemma SuccessDelegatesToEnv(fields: seq<Field>, secretKey: string, manager: SecretsManager, json: Json,
                              bindEnv: EnvBinder, secrets: Secrets)
    requires FetchAWSSecret(manager, secretKey).Success?
    requires json.valid(FetchAWSSecret(manager, secretKey).value)
    requires json.unmarshal(FetchAWSSecret(manager, secretKey).value) == Success(secrets)
    requires forall i :: 0 <= i < |fields| ==> !Fails(fields[i], secrets)
    ensures var r := Parse(fields, secretKey, manager, json, bindEnv);
      var bound := BindSecrets(fields, secrets).fields;
      && r.fields == bindEnv(bound).0
      && (r.err.None? <==> bindEnv(bound).1.None?)
      && (r.err.Some? ==> r.err == Some(External(bindEnv(bound).1.value)))
    ensures forall i :: 0 <= i < |fields| ==>
      BindSecrets(fields, secrets).fields[i]
        == if fields[i].Tagged() && fields[i].settable
           then fields[i].(value := Str(secrets[fields[i].secretTag]))
           else fields[i]
  {
  }

  /** The environment binder can only matter after the secret was fetched,
      decoded, and bound into every tagged field. */
  lemma EnvReachedOnlyAfterSecrets(fields: seq<Field>, secretKey: string, manager: SecretsManager, json: Json,
                                   bindEnv: EnvBinder, otherEnv: EnvBinder)
    requires Parse(fields, secretKey, manager, json, bindEnv) != Parse(fields, secretKey, manager, json, otherEnv)
    ensures FetchAWSSecret(manager, secretKey).Success?
    ensures var secret := FetchAWSSecret(manager, secretKey).value;
      && json.valid(secret)
      && json.unmarshal(secret).Success?
      && forall i :: 0 <= i < |fields| ==> !Fails(fields[i], json.unmarshal(secret).value)
  {
  }
}
