/** What the scripts do to one file on disk: its text, and the `.bak` file
    beside it, which is written only when it does not exist yet.  Reading
    and writing themselves are left out; a file is the pair of the two. */
module FileEffects {
  import opened Wrappers

  /** A source file and its backup (`None` while no backup exists). */
  datatype FileState = FileState(content: string, backup: Option<string>)

  /** `if not bak.exists(): bak.write_text(original)`, made before a
      file's text is replaced. */
  function BackupOnce(f: FileState): (r: FileState)
    ensures r.content == f.content && r.backup.Some?
    ensures f.backup.Some? ==> r.backup == f.backup
    ensures f.backup.None? ==> r.backup == Some(f.content)
  {
    if f.backup.Some? then f else f.(backup := Some(f.content))
  }

  /** `p.write_text(text)`: the backup is not touched. */
  function WriteText(f: FileState, text: string): (r: FileState)
    ensures r.content == text && r.backup == f.backup
  {
    f.(content := text)
  }

  /** One patch of a file: backup if absent, then write. */
  function Patch(f: FileState, text: string): FileState
  {
    WriteText(BackupOnce(f), text)
  }

  /** A backup, once made, is never overwritten: after any number of
      patches it still holds the text the file had before the first one,
      and the file holds the text of the last one. */
  lemma {:induction false} BackupHoldsFirstOriginal(f: FileState, texts: seq<string>)
    requires |texts| > 0
    ensures Patches(f, texts).backup == BackupOnce(f).backup
    ensures Patches(f, texts).content == texts[|texts| - 1]
    decreases |texts|
  {
    if |texts| > 1 {
      BackupHoldsFirstOriginal(f, texts[..|texts| - 1]);
    }
  }

  /** Patching a file once per text, in order. */
  function Patches(f: FileState, texts: seq<string>): FileState
  {
    if texts == [] then f else Patch(Patches(f, texts[..|texts| - 1]), texts[|texts| - 1])
  }
}
