/**
 The configuration struct as the loader sees it through reflection: an
 ordered list of field descriptors (conf/conf.go).
 */
module Fields {
  import opened Wrappers
  import opened Errors

  /** The value a field holds; the constructor is the field's reflect kind.
      Every kind other than string, int and bool is kept opaque. */
  datatype Value = Str(s: string) | Int(n: int) | Bool(b: bool) | Other(kind: string)

  /** One struct field in declaration order. `secretTag` is the value of its
      `secret` struct tag ("" when the field has none); `settable` is
      reflect's `CanSet`, which is false for unexported fields. */
  datatype Field = Field(name: string, secretTag: string, settable: bool, value: Value)
  {
    /** The field carries a non-empty `secret` tag. */
    predicate Tagged() {
      secretTag != ""
    }

    /** The field's reflect kind is `String`. */
    predicate IsString() {
      value.Str?
    }
  }

  /** The struct after a call, together with the error the call returned
      (`None` for a nil error). The struct is updated in place, so a failed
      call still leaves behind whatever it assigned. */
  datatype Outcome = Outcome(fields: seq<Field>, err: Option<Error>)

  /** `g` is `f` with at most its value replaced by one of the same kind. */
  predicate SameShape(f: Field, g: Field) {
    && g.name == f.name
    && g.secretTag == f.secretTag
    && g.settable == f.settable
    && g.IsString() == f.IsString()
  }
}
