/** The HDFS client library as an adversary: what `hdfsPread` and `hdfsWrite` may answer. */
module HdfsReplies {
  import opened Bytes

  const ENOENT := 2
  const EINTR := 4
  const EIO := 5
  const EBADF := 9
  const EEXIST := 17
  const EISDIR := 21
  const EINVAL := 22

  type Path = string

  type NonZero = e: int | e != 0 witness 5

  /** What the library decides to do with one `hdfsPread`. */
  datatype PreadReply =
    | Data(n: nat)             // at most n octets, but at least one unless at the end of the file
    | Failed(errno: int)       // result -1
    | Silent(error: NonZero)   // result 0, although errno is set

  /** A result, the errno it leaves, and the replies still to come. */
  datatype PreadAnswer = PreadAnswer(n: int, errno: int, rest: seq<PreadReply>)

  /** How many of `len` octets from `offset` on a file of `size` octets has. */
  function Available(size: nat, offset: nat, len: nat): (n: nat)
    ensures n <= len && (n > 0 ==> offset + n <= size)
    ensures n < len ==> offset + n >= size
  {
    if offset >= size then 0 else if len <= size - offset then len else size - offset
  }

  /** `hdfsPread` on the open file `file` (None: the handle cannot be read). When the replies run
      out, everything asked for is delivered. */
  function Pread(file: Option<seq<byte>>, offset: nat, len: nat, script: seq<PreadReply>): (a: PreadAnswer)
    ensures a.n <= len && |a.rest| <= |script|
    ensures a.n > 0 ==> file.Some? && offset + a.n <= |file.value|
    ensures a.n == 0 && a.errno == 0 ==> file.Some? && Available(|file.value|, offset, len) == 0
    ensures a.n < 0 && a.errno == EINTR ==> |a.rest| < |script|
  {
    if file.None? then PreadAnswer(-1, EBADF, script)
    else
      var reply := if script == [] then Data(len) else script[0];
      var rest := if script == [] then [] else script[1..];
      match reply
      case Data(n) =>
        var available := Available(|file.value|, offset, len);
        var most := if n <= available then n else available;
        PreadAnswer(if most == 0 && available > 0 then 1 else most, 0, rest)
      case Failed(e) => PreadAnswer(-1, e, rest)
      case Silent(e) => PreadAnswer(0, e, rest)
  }

  /** What the library decides to do with one `hdfsWrite`. */
  datatype WriteReply =
    | Accepted(n: nat)    // at most n octets, perhaps none
    | Rejected(code: nat) // a negative result

  /** The result of `hdfsWrite` on `data`. */
  function WriteResult(data: seq<byte>, script: seq<WriteReply>): (n: int)
    ensures n <= |data|
  {
    if script == [] then |data|
    else match script[0]
      case Accepted(n) => if n <= |data| then n else |data|
      case Rejected(code) => -(code + 1)
  }

  function Rest<T>(script: seq<T>): (rest: seq<T>)
    ensures script != [] ==> |rest| < |script|
  {
    if script == [] then [] else script[1..]
  }

  /** A positive errno comes back negative, a negative one as it is, and 0 as -1. */
  lemma {:induction false} EmsgIs(errno: int)
    ensures errno == 0 ==> Emsg(errno) == -1
    ensures errno != 0 ==> Emsg(errno) in {errno, -errno}
  {
  }

  /** The code `XrdHdfsSys::Emsg` returns: the current errno made negative, or -1. */
  function Emsg(errno: int): (code: int)
    ensures code < 0
  {
    if errno > 0 then -errno else if errno < 0 then errno else -1
  }
}
