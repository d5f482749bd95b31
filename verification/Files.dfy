// File contents as byte sequences, and the calls that change them.

module Files {
  import Endian

  type File = seq<Endian.Byte>

  /** What an off_t cannot express any more. */
  const OFF_T_LIMIT: int := 0x8000_0000_0000_0000

  /** ftruncate: cut short, or extended with zero bytes. */
  function Resize(f: File, n: nat): (g: File)
    ensures |g| == n
    ensures forall i :: 0 <= i < n ==> g[i] == if i < |f| then f[i] else 0
  {
    if n <= |f| then f[..n] else f + seq(n - |f|, _ => 0)
  }

  /** memcpy into a mapping of the file. */
  function Patch(f: File, at: nat, data: seq<Endian.Byte>): (g: File)
    requires at + |data| <= |f|
    ensures |g| == |f|
    ensures g[..at + |data|] == f[..at] + data
  {
    f[..at] + data + f[at + |data|..]
  }
}
