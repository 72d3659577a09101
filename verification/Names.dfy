/** File names as directories store them (kernel/src/fs/inode.rs, dentry.rs). */
module Names {
  import opened Base

  const MAXLEN_FILENAME := 60

  /** The name as stored: cut or zero-padded to 60 bytes. */
  function Key(name: seq<byte>): (k: seq<byte>)
    ensures |k| == MAXLEN_FILENAME
    ensures forall i :: 0 <= i < MAXLEN_FILENAME ==> k[i] == if i < |name| then name[i] else 0
  {
    seq(MAXLEN_FILENAME, i requires 0 <= i < MAXLEN_FILENAME => if i < |name| then name[i] else 0)
  }
}
