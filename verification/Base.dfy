/** Vocabulary shared by the models: bytes, optional values and file identities. */
module Base {
  type Byte = b: nat | b < 256

  /** One more than the largest 64-bit unsigned word. */
  const U64_LIMIT: nat := 0x1_0000_0000_0000_0000

  datatype Option<+T> = None | Some(value: T)

  datatype Kind = Directory | Regular | Symlink | Special

  // Permission bits the program compares against, in octal.
  const MODE_0444: nat := 292
  const MODE_0555: nat := 365
  const MODE_0600: nat := 384
  const MODE_0644: nat := 420
  const MODE_0700: nat := 448
  const MODE_0755: nat := 493

  /** What `stat` says about a node. */
  datatype Identity = Identity(dev: nat, ino: nat, uid: nat, mode: nat, kind: Kind, nlink: nat)
}
