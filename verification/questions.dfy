/** The question records of the bank, reduced to the fields the quiz logic reads. */
module Questions {
  import opened JsValues

  /**
    A question record. `kind` is the record's `type` field; `answer` and
    `expectedOutput` are its `answer` and `expected_output` fields, which may be
    missing (`Undefined`) or hold `null`, a boolean, an integer or a string;
    arrays, objects and non-integral numbers are not modelled.
  */
  datatype Question = Question(id: string, kind: string, answer: JsValue, expectedOutput: JsValue)
}
