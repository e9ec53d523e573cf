/** Aggregation of express-validator's result into one message: every error
    becomes `"<msg>: <param>"` and the entries are joined by `", "`. Both
    controllers use this for their validation gate. */
module Validation {

  /** One error of the validator's result array. */
  datatype ValidationError = ValidationError(msg: string, param: string)

  /** One entry of the message: the rule's message, a colon and a space, and
      the parameter's name. */
  function Entry(e: ValidationError): string {
    e.msg + ": " + e.param
  }

  /** JavaScript's `Array.prototype.join`. */
  function Join(parts: seq<string>, sep: string): string {
    if |parts| == 0 then ""
    else if |parts| == 1 then parts[0]
    else parts[0] + sep + Join(parts[1..], sep)
  }

  function Entries(errors: seq<ValidationError>): (r: seq<string>)
    ensures |r| == |errors|
    ensures forall i :: 0 <= i < |errors| ==> r[i] == Entry(errors[i])
  {
    seq(|errors|, i requires 0 <= i < |errors| => Entry(errors[i]))
  }

  /** The message a failed validation gate reports. */
  function Messages(errors: seq<ValidationError>): string {
    Join(Entries(errors), ", ")
  }

  /** Joining two non-empty lists is joining each and gluing the results with
      the separator. */
  lemma {:induction false} JoinAppend(a: seq<string>, b: seq<string>, sep: string)
    requires a != [] && b != []
    ensures Join(a + b, sep) == Join(a, sep) + sep + Join(b, sep)
  {
    if |a| == 1 {
      assert (a + b)[0] == a[0] && (a + b)[1..] == b;
    } else {
      assert (a + b)[0] == a[0];
      assert (a + b)[1..] == a[1..] + b;
      JoinAppend(a[1..], b, sep);
    }
  }

  /** The message of a single error is exactly `"msg: param"`. */
  lemma MessagesOne(e: ValidationError)
    ensures Messages([e]) == e.msg + ": " + e.param
  {
    assert Entries([e]) == [Entry(e)];
  }

  /** The aggregated message of two groups of errors is the two messages
      joined by `", "`: every error is reported, in order. */
  lemma MessagesAppend(e1: seq<ValidationError>, e2: seq<ValidationError>)
    requires e1 != [] && e2 != []
    ensures Messages(e1 + e2) == Messages(e1) + ", " + Messages(e2)
  {
    assert Entries(e1 + e2) == Entries(e1) + Entries(e2);
    JoinAppend(Entries(e1), Entries(e2), ", ");
  }

  /** The message starts with the first error's entry; after it and the
      separator comes the message of the remaining errors. */
  lemma MessagesCons(e: ValidationError, rest: seq<ValidationError>)
    requires rest != []
    ensures Messages([e] + rest) == e.msg + ": " + e.param + ", " + Messages(rest)
  {
    MessagesOne(e);
    MessagesAppend([e], rest);
  }

  /** A failed gate never reports an empty message. */
  lemma MessagesNonEmpty(errors: seq<ValidationError>)
    requires errors != []
    ensures |Messages(errors)| >= 2
  {
    if |errors| == 1 {
      MessagesOne(errors[0]);
    } else {
      assert errors == [errors[0]] + errors[1..];
      MessagesCons(errors[0], errors[1..]);
    }
  }
}
