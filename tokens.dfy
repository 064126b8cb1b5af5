/**
  Tokens, pointers and the error kinds shared by the patch operations.
 */
module Tokens {
  import opened Values

  /** An index modifier; its meaning belongs to the index resolver, which is not part of this model. */
  datatype Modifier = Modifier(name: string)

  datatype Token =
    | Root
    | Key(key: string, optional: bool)
    | Index(index: int, modifiers: seq<Modifier>)
    | AfterLast
    | Matching(mkey: string, mvalue: string, optional: bool, modifiers: seq<Modifier>)
    | Wildcard

  /**
    A pointer is a non-empty token list that starts with the root token.
    Building one from other token lists is a programming error in the
    source (it panics), so it is a constraint of the type here.
   */
  type Pointer = tokens: seq<Token> | |tokens| > 0 && tokens[0] == Root witness [Root]

  /** The error kinds the operations report; message formatting is left out. */
  datatype Error =
    | ParseError(message: string)
    | NotASequence(path: Pointer, found: Value)
    | NotAMapping(path: Pointer, found: Value)
    | MissingMapKey(missing: string, path: Pointer, present: map<Scalar, Value>)
    | MultipleMatchingIndices(path: Pointer, matches: seq<nat>)
    | AfterLastIndexNotLast(whole: Pointer)
    | WildcardMustNotBeLast
    | MissingContainerToken(path: Pointer)
    | UnexpectedToken(token: Token, path: Pointer)
    | CannotRemoveWholeDocument
    | CloneFailed(reason: string)

  datatype Result<T> = Ok(value: T) | Err(error: Error)
}
