/**
 The errors the configuration loader can end with, and the text Go's
 `error.Error()` gives for each of them (conf/conf.go).
 */
module Errors {

  /** Every way `Parse` can end other than a nil error. */
  datatype Error =
      /** An error value produced by a collaborator (the Secrets Manager
          client, the JSON decoder or the environment binder), handed back
          unchanged; it is modelled by its message. */
    | External(cause: string)
      /** The Secrets Manager answered without a `SecretString` (a binary
          secret): `fetchAWSSecret` dereferences the nil pointer and panics. The
          model makes that crash an explicit terminal outcome. */
    | NilSecretString
      /** The fetched secret is not a JSON document. */
    | NotJson
      /** A field's `secret` tag is not a key of the decoded secret object. */
    | MissingSecret(tag: string)
      /** A field with a `secret` tag whose key is present is not of string kind. */
    | IncorrectType(tag: string)
  {
    /** True of the errors that the loader raises itself, as opposed to
        passing along a collaborator's error. */
    predicate Raised() {
      !External?
    }
  }

  // The longer texts are written as two literals joined by `+`: the verifier
  // does not look inside a long literal, and the split lets it see the first
  // characters that tell the messages apart (MessageLead).
  const MissingPrefix := "required secret '"
  const MissingSuffix := "' is not set"
  const IncorrectPrefix := "incorrect type. " + "Expected a string for field '"
  const IncorrectSuffix := "'"
  const NotJsonText := "expected a JSON payload. " + "Plaintext secrets are not currently supported"
  const NilDereferenceText := "runtime error: " + "invalid memory address or nil pointer dereference"

  /** The text of the error as the caller sees it. A collaborator's error keeps
      its own text, the not-JSON error and the panic have fixed texts, and a
      per-field error is its tag between a fixed prefix and suffix. */
  function Message(e: Error): (m: string)
    ensures e.External? ==> m == e.cause
    ensures e.NotJson? ==> m == NotJsonText
    ensures e.NilSecretString? ==> m == NilDereferenceText
    ensures e.MissingSecret? ==>
      && |m| == |MissingPrefix| + |e.tag| + |MissingSuffix|
      && m[..|MissingPrefix|] == MissingPrefix
      && m[|MissingPrefix|..|MissingPrefix| + |e.tag|] == e.tag
      && m[|MissingPrefix| + |e.tag|..] == MissingSuffix
    ensures e.IncorrectType? ==>
      && |m| == |IncorrectPrefix| + |e.tag| + |IncorrectSuffix|
      && m[..|IncorrectPrefix|] == IncorrectPrefix
      && m[|IncorrectPrefix|..|IncorrectPrefix| + |e.tag|] == e.tag
      && m[|IncorrectPrefix| + |e.tag|..] == IncorrectSuffix
    ensures e.Raised() ==> |m| >= 2
  {
    match e
    case External(cause) => cause
    case NilSecretString => NilDereferenceText
    case NotJson => NotJsonText
    case MissingSecret(tag) => MissingPrefix + tag + MissingSuffix
    case IncorrectType(tag) => IncorrectPrefix + tag + IncorrectSuffix
  }

  /** A tag framed by a fixed prefix and suffix can be read back from the frame. */
  lemma FramedTagInjective(prefix: string, suffix: string, t1: string, t2: string)
    requires prefix + t1 + suffix == prefix + t2 + suffix
    ensures t1 == t2
  {
    var m1 := prefix + t1 + suffix;
    var m2 := prefix + t2 + suffix;
    assert |t1| == |t2|;
    assert t1 == m1[|prefix|..|prefix| + |t1|];
    assert t2 == m2[|prefix|..|prefix| + |t2|];
  }

  /** The first two characters of a raised error's message, which tell the
      four raised errors apart. */
  lemma MessageLead(e: Error)
    requires e.Raised()
    ensures |Message(e)| >= 2
    ensures e.NilSecretString? ==> Message(e)[..2] == "ru"
    ensures e.NotJson? ==> Message(e)[..2] == "ex"
    ensures e.MissingSecret? ==> Message(e)[..2] == "re"
    ensures e.IncorrectType? ==> Message(e)[..2] == "in"
  {

  }

  /** The message of an error the loader raises itself identifies that error:
      which check failed and, for the per-field checks, which tag. */
  lemma MessageIdentifiesError(e1: Error, e2: Error)
    requires e1.Raised() && e2.Raised()
    requires Message(e1) == Message(e2)
    ensures e1 == e2
  {
    MessageLead(e1);
    MessageLead(e2);
    if e1.MissingSecret? && e2.MissingSecret? {
      FramedTagInjective(MissingPrefix, MissingSuffix, e1.tag, e2.tag);
    } else if e1.IncorrectType? && e2.IncorrectType? {
      FramedTagInjective(IncorrectPrefix, IncorrectSuffix, e1.tag, e2.tag);
    }
  }
}
