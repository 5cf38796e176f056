/**
 The secret-binding loop of `Parse` (conf/conf.go:35-53): walk the struct's
 fields in declaration order and, for every field with a `secret` tag, copy
 the decoded secret object's entry for that tag into the field.
 */
module SecretPass {
  import opened Wrappers
  import opened Errors
  import opened Fields

  /** The decoded secret object: JSON keys to string values. */
  type Secrets = map<string, string>

  /** Visiting `f` stops the loop: it is tagged and either its key is missing
      or it is not a string field. */
  predicate Fails(f: Field, secrets: Secrets) {
    f.Tagged() && (f.secretTag !in secrets || !f.IsString())
  }

  /** The error a failing field stops the loop with. The key is looked up
      before the kind is inspected, so a missing key wins over a wrong kind. */
  function FieldError(f: Field, secrets: Secrets): (e: Error)
    requires Fails(f, secrets)
    ensures e.MissingSecret? <==> f.secretTag !in secrets
    ensures e.IncorrectType? <==> f.secretTag in secrets && !f.IsString()
    ensures e.Raised() && e.tag == f.secretTag
  {
    if f.secretTag !in secrets then MissingSecret(f.secretTag) else IncorrectType(f.secretTag)
  }

  /** The field after the loop has visited it without stopping. */
  function Assign(f: Field, secrets: Secrets): (g: Field)
    requires !Fails(f, secrets)
    ensures SameShape(f, g)
    ensures f.Tagged() && f.settable ==> g.value == Str(secrets[f.secretTag])
    ensures !(f.Tagged() && f.settable) ==> g == f
  {
    if f.Tagged() && f.settable then f.(value := Str(secrets[f.secretTag])) else f
  }

  /** The index of the first field that stops the loop, or `|fields|` when
      none does. */
  function FirstFailure(fields: seq<Field>, secrets: Secrets): (k: nat)
    ensures k <= |fields|
    ensures forall i :: 0 <= i < k ==> !Fails(fields[i], secrets)
    ensures k < |fields| ==> Fails(fields[k], secrets)
  {
    if |fields| == 0 then 0
    else if Fails(fields[0], secrets) then 0
    else 1 + FirstFailure(fields[1..], secrets)
  }

  /** The secret pass as a pure function: the fields before the first failing
      one are assigned, the failing one and everything after it are left
      alone, and the error is that of the failing field (nil if none fails). */
  function BindSecrets(fields: seq<Field>, secrets: Secrets): (r: Outcome)
    ensures |r.fields| == |fields|
    ensures var k := FirstFailure(fields, secrets);
      && r.err == (if k < |fields| then Some(FieldError(fields[k], secrets)) else None)
      && (forall i :: 0 <= i < k ==> r.fields[i] == Assign(fields[i], secrets))
      && (forall i :: k <= i < |fields| ==> r.fields[i] == fields[i])
    ensures forall i :: 0 <= i < |fields| ==> SameShape(fields[i], r.fields[i])
    ensures forall i :: 0 <= i < |fields| && !fields[i].Tagged() ==> r.fields[i] == fields[i]
    ensures forall i :: 0 <= i < |fields| && r.fields[i] != fields[i] ==>
      && fields[i].Tagged() && fields[i].settable && fields[i].IsString()
      && fields[i].secretTag in secrets
      && r.fields[i].value == Str(secrets[fields[i].secretTag])
  {
    if |fields| == 0 then Outcome([], None)
    else if Fails(fields[0], secrets) then Outcome(fields, Some(FieldError(fields[0], secrets)))
    else
      var rest := BindSecrets(fields[1..], secrets);
      Outcome([Assign(fields[0], secrets)] + rest.fields, rest.err)
  }

  /** The outcome of the pass is determined by its characterisation: any
      struct state and error that agree with it are the pass's own. */
  lemma BindSecretsDetermined(fields: seq<Field>, secrets: Secrets, out: seq<Field>, err: Option<Error>)
    requires |out| == |fields|
    requires var k := FirstFailure(fields, secrets);
      && err == (if k < |fields| then Some(FieldError(fields[k], secrets)) else None)
      && (forall i :: 0 <= i < k ==> out[i] == Assign(fields[i], secrets))
      && (forall i :: k <= i < |fields| ==> out[i] == fields[i])
    ensures Outcome(out, err) == BindSecrets(fields, secrets)
  {
    var r := BindSecrets(fields, secrets);
    assert forall i :: 0 <= i < |fields| ==> out[i] == r.fields[i];
    assert out == r.fields;
  }

  /** The loop as `Parse` writes it: an index over the fields, an update of
      the struct in place and a return on the first failing field. It ends in
      exactly the state and error of the pure pass. */
  method BindSecretsInPlace(fields: seq<Field>, secrets: Secrets) returns (out: seq<Field>, err: Option<Error>)
    ensures Outcome(out, err) == BindSecrets(fields, secrets)
  {
    out := fields;
    var i := 0;
    while i < |out|
      invariant 0 <= i <= |out| == |fields|
      invariant i <= FirstFailure(fields, secrets)
      invariant forall j :: 0 <= j < i ==> out[j] == Assign(fields[j], secrets)
      invariant forall j :: i <= j < |fields| ==> out[j] == fields[j]
    {
      var f := out[i];
      if f.Tagged() {
        if f.secretTag !in secrets {
          err := Some(MissingSecret(f.secretTag));
          assert FirstFailure(fields, secrets) == i;
          BindSecretsDetermined(fields, secrets, out, err);
          return;
        }
        if !f.IsString() {
          err := Some(IncorrectType(f.secretTag));
          assert FirstFailure(fields, secrets) == i;
          BindSecretsDetermined(fields, secrets, out, err);
          return;
        }
        if f.settable {
          out := out[i := f.(value := Str(secrets[f.secretTag]))];
        }
      }
      i := i + 1;
    }
    err := None;
    BindSecretsDetermined(fields, secrets, out, err);
  }

  /** A failing field reached with every earlier field passing is the first
      failing field, and the pass stops there with that field's error and
      leaves it and every later field alone. */
  lemma StopsAt(fields: seq<Field>, secrets: Secrets, j: nat)
    requires j < |fields|
    requires forall i :: 0 <= i < j ==> !Fails(fields[i], secrets)
    requires Fails(fields[j], secrets)
    ensures FirstFailure(fields, secrets) == j
    ensures BindSecrets(fields, secrets).err == Some(FieldError(fields[j], secrets))
    ensures BindSecrets(fields, secrets).fields[j..] == fields[j..]
  {
    var r := BindSecrets(fields, secrets);
    assert forall i :: j <= i < |fields| ==> r.fields[i] == fields[i];
    assert r.fields[j..] == fields[j..];
  }

  /** A tagged field whose key is absent, reached with every earlier field
      passing, stops the pass with the missing-secret error whatever its kind. */
  lemma MissingKeyBeforeType(fields: seq<Field>, secrets: Secrets, j: nat)
    requires j < |fields|
    requires forall i :: 0 <= i < j ==> !Fails(fields[i], secrets)
    requires fields[j].Tagged() && fields[j].secretTag !in secrets
    ensures BindSecrets(fields, secrets).err == Some(MissingSecret(fields[j].secretTag))
    ensures BindSecrets(fields, secrets).fields[j..] == fields[j..]
  {
    StopsAt(fields, secrets, j);
  }

  /** A tagged non-string field whose key is present, reached with every
      earlier field passing, stops the pass with the incorrect-type error. */
  lemma IncorrectTypeWhenKeyPresent(fields: seq<Field>, secrets: Secrets, j: nat)
    requires j < |fields|
    requires forall i :: 0 <= i < j ==> !Fails(fields[i], secrets)
    requires fields[j].Tagged() && fields[j].secretTag in secrets && !fields[j].IsString()
    ensures BindSecrets(fields, secrets).err == Some(IncorrectType(fields[j].secretTag))
    ensures BindSecrets(fields, secrets).fields[j..] == fields[j..]
  {
    StopsAt(fields, secrets, j);
  }

  /** The pass succeeds exactly when no field fails, and then every settable
      tagged field holds its secret while every other field is unchanged. */
  lemma SuccessAssignsSecrets(fields: seq<Field>, secrets: Secrets)
    ensures BindSecrets(fields, secrets).err.None? <==> forall i :: 0 <= i < |fields| ==> !Fails(fields[i], secrets)
    ensures var r := BindSecrets(fields, secrets);
      r.err.None? ==> forall i :: 0 <= i < |fields| ==>
        if fields[i].Tagged() && fields[i].settable
        then fields[i].secretTag in secrets && r.fields[i].value == Str(secrets[fields[i].secretTag])
        else r.fields[i] == fields[i]
  {
  }

  /** Which field stops the pass depends only on the fields' tags and kinds,
      so it is the same for any struct of the same shape. */
  lemma FirstFailureByShape(fields: seq<Field>, other: seq<Field>, secrets: Secrets)
    requires |other| == |fields|
    requires forall i :: 0 <= i < |fields| ==> SameShape(fields[i], other[i])
    ensures FirstFailure(other, secrets) == FirstFailure(fields, secrets)
  {
  }

  /** Running the pass again on its own result with the same secrets changes
      nothing: the same field fails and the assigned ones already hold their
      secrets. */
  lemma BindSecretsIdempotent(fields: seq<Field>, secrets: Secrets)
    ensures BindSecrets(BindSecrets(fields, secrets).fields, secrets) == BindSecrets(fields, secrets)
  {
    var once := BindSecrets(fields, secrets);
    var twice := BindSecrets(once.fields, secrets);
    var k := FirstFailure(fields, secrets);
    FirstFailureByShape(fields, once.fields, secrets);
    forall i | 0 <= i < |fields|
      ensures twice.fields[i] == once.fields[i]
    {
      if i < k {
        assert Assign(once.fields[i], secrets) == once.fields[i];
      }
    }
    assert twice.fields == once.fields;
  }
}
