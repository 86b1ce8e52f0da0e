/** The abstract archive that the tar codec reads and writes: a sequence of
    members, each a header (name, type, size) and its content.  The byte
    format, compression, time stamps, owner names and mode bits are not part
    of this view. */
module TarModel {

  datatype Option<T> = None | Some(value: T)

  /** The ways the store fails.  In the Python code each is an AssertionError
      (or, for an empty mode string, an IndexError). */
  datatype Error =
    | BadMode             // writer mode is empty or does not start with 'a' or 'w'
    | NoArchiveExtension  // no dir_name was given and FILE_PAT does not match
    | NotAFile            // a reader was asked for a path that is not a file
    | NoKeygen            // add was called on a writer without a keygen

  datatype Result<T> = Ok(value: T) | Err(error: Error)

  /** Member types: regular files, directories, and everything else
      (links, devices, FIFOs ...), which the reader treats alike. */
  datatype Kind = Dir | File | Other

  datatype TarInfo = TarInfo(name: string, kind: Kind, size: nat)

  datatype Member = Member(info: TarInfo, content: string) {
    predicate IsFile() { info.kind == File }
  }

  /** A (key, value) pair as the writer takes it and the reader yields it. */
  type Pair = (string, string)

  /** The files on disk that the store can see, by path. */
  type FileSystem = map<string, seq<Member>>
}
