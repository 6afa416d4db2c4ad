/** The required-field check that createTask and createSubTask run on the body's
    strings before anything else. */
module Fields {
  import opened Js

  /** One field of the check as written, `field?.trim === ''`: the method `trim`
      itself is compared with the empty string, and a function is never equal to a
      string, so no field ever counts as missing. */
  predicate TrimMemberIsEmptyAsWritten(field: string) {
    false
  }

  /** The check as written: `[...].some((field) => field?.trim === '')`, which holds
      for no fields at all. */
  predicate MissingFieldAsWritten(fields: seq<string>): (b: bool)
    ensures !b
  {
    exists i :: 0 <= i < |fields| && TrimMemberIsEmptyAsWritten(fields[i])
  }

  /** The check as written lets a blank title through, which the intended check refuses. */
  lemma BlankTitleSlipsThrough()
    ensures !MissingFieldAsWritten(["   ", "buy milk", "2030-01-01"])
    ensures HasBlankField(["   ", "buy milk", "2030-01-01"])
  {
    assert Trim(["   ", "buy milk", "2030-01-01"][0]) == "";
  }

  /** The check as intended, `field?.trim() === ''`: some field is empty once trimmed. */
  predicate HasBlankField(fields: seq<string>) {
    exists i :: 0 <= i < |fields| && Trim(fields[i]) == ""
  }

  /** The intended check refuses exactly the requests with a field made of white
      space alone (the empty string included). */
  lemma HasBlankFieldIffWhitespaceOnly(fields: seq<string>)
    ensures HasBlankField(fields) <==> exists i :: 0 <= i < |fields| && IsBlank(fields[i])
  {
  }
}
