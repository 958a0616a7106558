/** Form state shared by the checkout dialog and the two admin food forms:
    an error map keyed by field name, the change handler that writes one
    field and clears that field's error, the flattening of a Laravel
    validation response into one message per field, and the list
    operations on the portion-size rows. */
module FormState {
  import opened Common

  // ---------------------------------------------------------------- errors

  /** `if (errors[field]) delete errors[field]`: only a non-empty message
      is truthy, so an empty one stays. */
  function ClearedError(errors: Record<string>, field: string): Record<string> {
    match Lookup(errors, field)
    case Some(m) => if m != "" then Without(errors, field) else errors
    case None => errors
  }

  /** After clearing, `field` has no message unless it held the empty one;
      every other field keeps its message. */
  lemma ClearedErrorLookup(errors: Record<string>, field: string, f: string)
    requires DistinctKeys(errors)
    ensures DistinctKeys(ClearedError(errors, field))
    ensures Lookup(ClearedError(errors, field), f) ==
      if f == field && Lookup(errors, field) != Some("") then None else Lookup(errors, f)
  {
    WithoutDistinct(errors, field);
    if Lookup(errors, field).Some? && Lookup(errors, field).value != "" {
      LookupWithout(errors, field, f);
    }
  }

  /** `value || ''`: a missing or null text as an empty input. */
  function OrEmpty(v: Option<string>): (r: string)
    ensures v.None? ==> r == ""
    ensures v.Some? ==> r == v.value
  {
    v.GetOr("")
  }

  /** The empty input and the value it came from: `Received(OrEmpty(v)) == v`
      unless `v` is an empty text. */
  lemma ReceivedOrEmpty(v: Option<string>)
    requires v != Some("")
    ensures Received(OrEmpty(v)) == v
  {
  }

  /** A submitted string as a controller sees it after Laravel's
      ConvertEmptyStringsToNull middleware: the empty string is null. */
  function Received(v: string): (r: Option<string>)
    ensures r.None? <==> v == ""
    ensures r.Some? ==> r.value == v
  {
    if v == "" then None else Some(v)
  }

  // ------------------------------------------------ validation responses

  /** One entry of a response's `errors` object: a validation failure sends
      an array of messages, while the controllers' own 500 replies send
      `errors.general` as a single string. */
  datatype ErrorValue = Messages(messages: seq<string>) | Message(message: string)

  /** `Array.isArray(v) ? v[0] : v`; an empty array yields `undefined`, which
      the form treats as having no error. */
  function FirstMessage(v: ErrorValue): (r: Option<string>)
    ensures v.Message? ==> r == Some(v.message)
    ensures v.Messages? ==> (r.None? <==> v.messages == [])
    ensures v.Messages? && v.messages != [] ==> r.value == v.messages[0]
  {
    match v
    case Message(m) => Some(m)
    case Messages(ms) => if ms == [] then None else Some(ms[0])
  }

  /** The error map built key by key from a response's `errors` object. */
  function Formatted(errors: Record<ErrorValue>): Record<string> {
    if errors == [] then []
    else
      var n := |errors| - 1;
      var prefix := Formatted(errors[..n]);
      match FirstMessage(errors[n].1)
      case Some(m) => Put(prefix, errors[n].0, m)
      case None => prefix
  }

  /** The `Object.keys(data.errors).forEach` loop at the point where the
      dialogs build `formattedErrors`. */
  method FormatErrors(errors: Record<ErrorValue>) returns (formatted: Record<string>)
    ensures formatted == Formatted(errors)
  {
    formatted := [];
    for i := 0 to |errors|
      invariant formatted == Formatted(errors[..i])
    {
      assert errors[..i + 1][..i] == errors[..i];
      var m := FirstMessage(errors[i].1);
      if m.Some? {
        formatted := Put(formatted, errors[i].0, m.value);
      }
    }
    assert errors[..|errors|] == errors;
  }

  /** Each field of the response shows its first message and nothing else
      is shown. */
  lemma {:induction false} FormattedLookup(errors: Record<ErrorValue>, k: string)
    requires DistinctKeys(errors)
    ensures DistinctKeys(Formatted(errors))
    ensures Lookup(Formatted(errors), k) ==
      match Lookup(errors, k)
      case None => None
      case Some(v) => FirstMessage(v)
    decreases |errors|
  {
    if errors != [] {
      var n := |errors| - 1;
      var prefix := errors[..n];
      FormattedLookup(prefix, k);
      var k' := errors[n].0;
      assert k' !in Keys(prefix) by {
        forall i | 0 <= i < |prefix| ensures Keys(prefix)[i] != k' {
          assert prefix[i] == errors[i];
        }
      }
      var m := FirstMessage(errors[n].1);
      assert Formatted(errors) == if m.Some? then Put(Formatted(prefix), k', m.value) else Formatted(prefix);
      if m.Some? {
        LookupPut(Formatted(prefix), k', m.value, k);
      }
      if k == k' {
        LookupAt(errors, n);
        FormattedAbsent(prefix, k);
      } else {
        LookupLast(errors, k);
      }
    }
  }

  /** A key the response does not mention gets no message. */
  lemma {:induction false} FormattedAbsent(errors: Record<ErrorValue>, k: string)
    requires k !in Keys(errors)
    ensures k !in Keys(Formatted(errors))
    decreases |errors|
  {
    if errors != [] {
      var n := |errors| - 1;
      assert k !in Keys(errors[..n]) by {
        forall i | 0 <= i < n ensures Keys(errors[..n])[i] != k {
          assert errors[..n][i] == errors[i];
        }
      }
      FormattedAbsent(errors[..n], k);
      if FirstMessage(errors[n].1).Some? {
        LookupPut(Formatted(errors[..n]), errors[n].0, FirstMessage(errors[n].1).value, k);
      }
    }
  }

  /** The decoded body of a failed response. */
  datatype FailureData = FailureData(errors: Option<Record<ErrorValue>>, message: Option<string>)

  /** The error map a form shows after a non-success response: the
      flattened `errors` when the body has them, otherwise one `general`
      message, the body's own when it is truthy, else `fallback`. */
  function FailureErrors(data: FailureData, fallback: string): (r: Record<string>)
    ensures data.errors.Some? ==> r == Formatted(data.errors.value)
    ensures data.errors.None? && data.message.Some? && data.message.value != "" ==> r == [("general", data.message.value)]
    ensures data.errors.None? && (data.message.None? || data.message.value == "") ==> r == [("general", fallback)]
  {
    match data.errors
    case Some(es) => Formatted(es)
    case None =>
      [("general", if data.message.Some? && data.message.value != "" then data.message.value else fallback)]
  }

  /** The message shown when the request itself failed or the body was not JSON. */
  const NetworkFailure := "An error occurred. Please try again."

  // --------------------------------------------------- portion-size rows

  /** `list.filter((_, i) => i !== index)` over the positions below `|s|`. */
  function RemovedAt<T>(s: seq<T>, index: int): (r: seq<T>)
    ensures |r| <= |s|
    decreases |s|
  {
    if s == [] then []
    else RemovedAt(s[..|s| - 1], index) + (if |s| - 1 != index then [s[|s| - 1]] else [])
  }

  /** Removing a position that exists drops exactly that row; any other
      index leaves the list as it was. */
  lemma {:induction false} RemovedAtMeaning<T>(s: seq<T>, index: int)
    ensures 0 <= index < |s| ==> RemovedAt(s, index) == s[..index] + s[index + 1..]
    ensures !(0 <= index < |s|) ==> RemovedAt(s, index) == s
    decreases |s|
  {
    if s != [] {
      var n := |s| - 1;
      RemovedAtMeaning(s[..n], index);
      if 0 <= index < n {
        assert s[..n][..index] == s[..index];
        assert s[..n][index + 1..] + [s[n]] == s[index + 1..];
      } else if index == n {
        assert s[..n][..index] == s[..index];
        assert s[index + 1..] == [];
      } else {
        assert s[..n] + [s[n]] == s;
      }
    }
  }

  /** `list.map((row, i) => i === index ? f(row) : row)`: a position that
      exists is rewritten, any other index leaves the list as it was. */
  function UpdatedAt<T>(s: seq<T>, index: int, f: T -> T): (r: seq<T>)
    ensures 0 <= index < |s| ==> r == s[index := f(s[index])]
    ensures !(0 <= index < |s|) ==> r == s
  {
    seq(|s|, k requires 0 <= k < |s| => if k == index then f(s[k]) else s[k])
  }
}
