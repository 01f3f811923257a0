/**
 * The journal entry record (`JournalEntry` in journal_entry.py).
 */
module Journal {
  import opened Text
  import opened Clock

  /** The notebook whose entries live directly in the journal directory; it
      cannot be renamed to, deleted or chosen as a new name. */
  const DefaultNotebook := "Default"

  datatype JournalEntry = JournalEntry(
    title: string,
    content: string,
    date: string,
    filePath: Option<string>,
    wordCount: nat,
    createdTime: string)

  /** The number of whitespace-separated words, or 0 for empty content. */
  function WordCount(content: string): (n: nat)
    ensures n == WordStarts(content, true)
    ensures n == 0 <==> IsBlank(content)
    ensures n <= |content|
  {
    WordsCountsWordStarts(content);
    WordsEmptyIffBlank(content);
    if content != [] then |Words(content)| else 0
  }

  /** `JournalEntry(title, content, date, file_path=None)`, created at the
      clock reading `now`. */
  function NewJournalEntry(title: string, content: string, date: string, now: DateTime,
                           filePath: Option<string> := None): (e: JournalEntry)
    requires Valid(now)
    ensures e.title == title && e.content == content && e.date == date && e.filePath == filePath
    ensures e.wordCount == WordStarts(content, true)
    ensures |e.createdTime| == 5 && e.createdTime[2] == ':'
    ensures ReadsAs(e.createdTime[..2], now.hour) && ReadsAs(e.createdTime[3..], now.minute)
  {
    JournalEntry(title, content, date, filePath, WordCount(content), FormatHourMinute(now))
  }

  /** Without a path argument the entry has no file. */
  lemma {:induction false} OmittedPathIsNone(title: string, content: string, date: string, now: DateTime)
    requires Valid(now)
    ensures NewJournalEntry(title, content, date, now).filePath == None
  {
  }
}
