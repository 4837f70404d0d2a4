/** Optional values and the error outcomes of the transcription backend's symbolic layer.
    The source signals these cases with `None` and with raised exceptions. */
module Outcomes {

  datatype Option<+T> = None | Some(value: T)

  /** The exceptions the modelled code raises, one constructor per cause. */
  datatype Error =
    | InvalidNoteName(name: string)       // note_name_to_midi: ValueError
    | NoValidAllowedNotes                 // NoteQuantizer.__init__: ValueError
    | MalformedTimeSignature(text: string) // "n/d" split/int() failure: ValueError
    | ZeroDenominator                     // numerator * (4 / 0): ZeroDivisionError
    | InvalidPercent(percent: int)        // ProgressEvent outside 0..100: pydantic ValidationError

  datatype Result<+T> = Success(value: T) | Failure(error: Error)
}
