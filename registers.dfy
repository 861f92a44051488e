/**
 * The bus-arrival sample of `busdatagenerator.py`: a `Register` with its four
 * normalised fields and the identifier derived from three of them.
 */
module Registers {
  import opened Wrappers
  import opened Builtins

  /** A `Register` once `__post_init__` has normalised its fields. */
  datatype Register = Register(line: string, actualDatetime: string, delayMinutes: int, stopId: int)

  /**
   * `Register(line, actual_datetime, delay_minutes, stop_id)`: `str()` of the
   * first two arguments and `int()` of the last two, in that order, so the
   * first conversion that raises decides the error.
   */
  function NewRegister(line: PyValue, actualDatetime: PyValue, delayMinutes: PyValue, stopId: PyValue)
    : (r: Result<Register, PyError>)
    ensures r.Ok? <==> Int(delayMinutes).Ok? && Int(stopId).Ok?
    ensures r.Err? && Int(delayMinutes).Err? ==> r.error == Int(delayMinutes).error
  {
    var delay :- Int(delayMinutes);
    var stop :- Int(stopId);
    Ok(Register(Str(line), Str(actualDatetime), delay, stop))
  }

  /** Normalising an already normal register changes nothing. */
  lemma NewRegisterOfFields(r: Register)
    ensures NewRegister(PyStr(r.line), PyStr(r.actualDatetime), PyInt(r.delayMinutes), PyInt(r.stopId)) == Ok(r)
  {
  }

  /**
   * A register rebuilt from the text of its fields, as a CSV row gives them,
   * is the register itself.
   */
  lemma NewRegisterFromText(r: Register)
    ensures NewRegister(PyStr(r.line), PyStr(r.actualDatetime),
                        PyStr(IntToString(r.delayMinutes)), PyStr(IntToString(r.stopId))) == Ok(r)
  {
    ParseIntOfIntToString(r.delayMinutes);
    ParseIntOfIntToString(r.stopId);
  }

  // ---------------------------------------------------------------------------
  // Identifier

  /** The triple the identifier is computed from; `delay_minutes` is not part of it. */
  datatype IdKey = IdKey(line: string, actualDatetime: string, stopId: int)

  /** A SHA-1 hex digest. */
  type Id = string

  /**
   * `sha1(str(p).encode()).hexdigest()` over the key triple `p`. The hash is a
   * parameter of the model: nothing is assumed about it beyond being a function.
   */
  type Digest = IdKey -> Id

  function Key(r: Register): IdKey
  {
    IdKey(r.line, r.actualDatetime, r.stopId)
  }

  /** `Register.id`. */
  function IdOf(r: Register, sha1: Digest): Id
  {
    sha1(Key(r))
  }

  /** Registers that differ only in their delay share an identifier. */
  lemma IdIgnoresDelay(r: Register, delay: int, sha1: Digest)
    ensures IdOf(r.(delayMinutes := delay), sha1) == IdOf(r, sha1)
  {
  }

  /** The identifier is a function of `(line, actual_datetime, stop_id)` alone. */
  lemma IdDeterminedByKey(r1: Register, r2: Register, sha1: Digest)
    requires r1.line == r2.line && r1.actualDatetime == r2.actualDatetime && r1.stopId == r2.stopId
    ensures IdOf(r1, sha1) == IdOf(r2, sha1)
  {
  }
}
