module Fates {

  /** The fate of a statement sent to a store: done, done although an error was reported,
      or not done. */
  datatype Fate = Done | LostReply | Refused
}
