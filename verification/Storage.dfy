/** Files as the downloader sees them: one target and per-process intermediate files. */
module Storage {

  datatype Option<+T> = None | Some(value: T)

  type Byte = b: int | 0 <= b < 256

  type Bytes = seq<Byte>

  /** `<target>`, `<target>.<pid>.tmp` and `<target>.<pid>.part<i>`. */
  datatype Path =
    | Target
    | Tmp(pid: nat)
    | Part(pid: nat, i: nat)

  type Disk = map<Path, Bytes>

  predicate OwnedBy(f: Path, pid: nat) {
    f != Target && f.pid == pid
  }

  function Get(disk: Disk, f: Path): Option<Bytes> {
    if f in disk then Some(disk[f]) else None
  }

  /** The bytes of a file that may be missing. */
  function Content(file: Option<Bytes>): Bytes {
    match file
    case None => []
    case Some(b) => b
  }

  function Set(disk: Disk, f: Path, file: Option<Bytes>): (d: Disk)
    ensures Get(d, f) == file
    ensures forall g | g != f :: Get(d, g) == Get(disk, g)
  {
    match file
    case None => disk - {f}
    case Some(b) => disk[f := b]
  }

  /** Lets a member be chosen from a set known not to be empty. */
  lemma EmptyOrNot<T>(s: set<T>)
    ensures s == {} || exists x :: x in s
  {
    if !(exists x :: x in s) {
      assert s == {};
    }
  }
}
