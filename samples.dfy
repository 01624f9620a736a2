/** Sample.java: the (choices, decision) pair that constitutes one labelled record. */
module Samples {

  /**
   * A sample: the attribute-name -> value choices and the decision for them.
   * The decision type is fixed to string, the only type the system instantiates it with.
   */
  datatype Sample = Sample(choices: map<string, string>, decision: string)
}
