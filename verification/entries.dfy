/** Walker entries and the two predicates the finder applies to them. */
module Entries {
  import opened Wrappers

  /**
   * The file kinds std::fs::FileType distinguishes (links are not followed).
   * Other stands for FIFOs, sockets and block or character devices.
   */
  datatype FileKind = Directory | RegularFile | Symlink | Other

  /**
   * An ignore::DirEntry as the finder sees it: its path rendered lossily
   * (to_string_lossy), its path as UTF-8 when it is valid UTF-8 (to_str),
   * its final path component, and its file type when the walker could
   * determine it.
   */
  datatype Entry = Entry(
    lossyPath: string,
    utf8Path: Option<string>,
    fileName: string,
    fileType: Option<FileKind>)

  /** An ignore::Error reported by the walker in place of an entry. */
  datatype WalkError = WalkError(message: string)

  /** One item yielded by the walker. */
  type WalkItem = Result<Entry, WalkError>

  /** The name of the version-control directory the walker prunes. */
  const GitDirName: string := ".git"

  /**
   * The walker's entry filter: an entry is kept unless its type is unknown
   * or it is a directory named `.git`. A file or symlink named `.git` is kept.
   */
  function SkipGit(e: Entry): (keep: bool)
    ensures !keep <==> e.fileType == None || (e.fileType == Some(Directory) && e.fileName == GitDirName)
  {
    if e.fileType.Some? then
      if e.fileType.value.Directory? && e.fileName == GitDirName then false
      else true
    else
      false
  }

  /**
   * Whether the folds skip an entry: directories, and defensively every
   * entry whose type is unknown. Every other kind of file gets through.
   */
  function IsDir(e: Entry): (dir: bool)
    ensures dir <==> e.fileType in {None, Some(Directory)}
  {
    match e.fileType
    case Some(kind) => kind.Directory?
    case None => true
  }

  /** Everything the entry filter rejects is an entry the folds skip anyway. */
  lemma FilterRejectsOnlySkippedEntries(e: Entry)
    ensures !SkipGit(e) ==> IsDir(e)
  {
  }

  /** The filter keeps every non-directory, including one named `.git`. */
  lemma FilterKeepsEveryFile(e: Entry)
    ensures !IsDir(e) ==> SkipGit(e)
  {
  }
}
