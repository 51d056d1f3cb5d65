// Types shared by every module of the model.

module Common {
  /** One octet of a packet or a file. */
  type byte = b: int | 0 <= b < 0x100

  datatype Option<+T> = None | Some(value: T)

  datatype Result<+T, +E> = Ok(value: T) | Err(error: E)

  /** A file on disk: one that cannot be read, one of no bytes, one that does not parse, or one that holds a value. */
  datatype File<T> = Missing | Unreadable | Empty | Malformed | Holds(value: T)

  /**
   * What becomes of one file write. The file is truncated before it is filled, so a write that fails after that
   * leaves it empty or with the front of the text.
   */
  datatype Write = Done | Refused | Emptied | Torn

  function Written<T>(file: File<T>, value: T, write: Write): File<T> {
    match write {
      case Done => Holds(value)
      case Refused => file
      case Emptied => Empty
      case Torn => Malformed
    }
  }

  /** `previous`, unless the newer reading is present. */
  function Newer<T>(previous: Option<T>, next: Option<T>): Option<T> {
    if next.Some? then next else previous
  }

  /** The low 16 bits of `n`, low octet first. */
  function Unsigned16LE(n: nat): (r: seq<byte>)
    ensures |r| == 2
  {
    [n % 0x100, n / 0x100 % 0x100]
  }

  lemma Regroup<T>(a: seq<T>, b: seq<T>, c: seq<T>)
    ensures a + b + c == a + (b + c)
  {
  }

  lemma SliceOfSlice<T>(s: seq<T>, a: nat, b: nat, c: nat, d: nat)
    requires a <= b <= |s| && c <= d <= b - a
    ensures s[a..b][c..d] == s[a + c..a + d]
  {
    var whole, part := s[a..b], s[a + c..a + d];
    assert forall i :: 0 <= i < d - c ==> whole[c..d][i] == whole[c + i] == part[i];
  }
}
