/** Outcome types shared by the scanner, the parser and the tree. */
module Results {

  /** A value that may be absent; stands for a Java reference that may be null. */
  datatype Option<+T> = None | Some(value: T)

  /** The outcome of a parsing step. The Java code aborts a parse by throwing
      IllegalArgumentException (a token did not match), NullPointerException
      (a peek or read past the end of the tokens) or IndexOutOfBoundsException
      (skipping whitespace past the end). All of them are one failure here,
      carrying the cursor index of the token stream at the moment of the throw. */
  datatype Result<+T> = Ok(value: T) | Fail(at: nat)
}
