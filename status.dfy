/** Model of putong's Status<E>: a value that is either OK or an error carrying
    a code of the enumeration E and a message. A Status is built once by one of
    its constructors and only read afterwards, so it is a plain datatype. */
module PutongStatus {

  /** OkStatus is the default (status_ == OK, empty msg_); ErrorStatus is what
      Status(code, message) builds. */
  datatype Status<E> = OkStatus | ErrorStatus(code: E, message: string)

  /** ok(): true exactly for the OK status. */
  predicate IsOk<E>(s: Status<E>): (b: bool)
    ensures b <==> s == OkStatus
  {
    s.OkStatus?
  }

  /** msg(): the message given at construction; the default-constructed
      message is the empty string. */
  function Msg<E>(s: Status<E>): (m: string)
    ensures IsOk(s) ==> m == ""
    ensures !IsOk(s) ==> m == s.message
  {
    match s
    case OkStatus => ""
    case ErrorStatus(_, m) => m
  }

  /** err(): the code given at construction. The code of an OK status is
      indeterminate in the source, so it is not defined here. */
  function Err<E>(s: Status<E>): (c: E)
    requires !IsOk(s)
    ensures s == ErrorStatus(c, Msg(s))
  {
    s.code
  }

  /** The default constructor Status(). */
  function Default<E>(): (s: Status<E>)
    ensures IsOk(s)
    ensures Msg(s) == ""
  {
    OkStatus
  }

  /** Status::OK(), which returns a default-constructed Status. */
  function OK<E>(): (s: Status<E>)
    ensures IsOk(s)
    ensures Msg(s) == ""
    ensures s == Default<E>()
  {
    Default()
  }

  /** The constructor Status(code, message). */
  function NewError<E>(code: E, message: string): (s: Status<E>)
    ensures !IsOk(s)
    ensures Err(s) == code
    ensures Msg(s) == message
  {
    ErrorStatus(code, message)
  }

  /** Every status is one that a constructor builds, and the accessors recover
      the arguments it was built from. */
  lemma StatusIsConstructed<E>(s: Status<E>)
    ensures IsOk(s) <==> s == OK<E>()
    ensures !IsOk(s) ==> s == NewError(Err(s), Msg(s))
  {
  }

  /** The accessors tell error statuses apart: two of them report the same
      code and message exactly when they were built from the same ones. */
  lemma AccessorsDistinguishErrors<E>(c1: E, m1: string, c2: E, m2: string)
    ensures Err(NewError(c1, m1)) == Err(NewError(c2, m2)) && Msg(NewError(c1, m1)) == Msg(NewError(c2, m2))
      <==> c1 == c2 && m1 == m2
  {
  }
}
