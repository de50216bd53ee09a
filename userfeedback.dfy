/**
 * The helpers of the user-feedback skill (user_feedback.py): a text file
 * whose first line records when an agent last read it. `update` rewrites
 * only that first line, `init` writes a fresh two-line file, and `check`
 * maps the file's state to a return code. A file is its text, or `None`
 * when it does not exist; the timestamp the script would read from the
 * clock is a parameter.
 */
module UserFeedback {
  import opened Wrappers
  import opened Text

  /** The note `init_user_feedback` writes below the timestamp, in three pieces that are checked for newlines one by one. */
  const DefaultNote: string := NoteStart + NoteMiddle + NoteEnd
  const NoteStart: string := "Do not delete the timestamp above; "
  const NoteMiddle: string := "it records the last time "
  const NoteEnd: string := "this file was read by an agent."

  predicate NoNewline(s: string) {
    forall k :: 0 <= k < |s| ==> s[k] != '\n'
  }

  lemma NoteIsOneLine()
    ensures '\n' !in DefaultNote
  {
    assert NoNewline(NoteStart) by {
      forall k | 0 <= k < |NoteStart| ensures NoteStart[k] != '\n' { }
    }
    assert NoNewline(NoteMiddle) by {
      forall k | 0 <= k < |NoteMiddle| ensures NoteMiddle[k] != '\n' { }
    }
    assert NoNewline(NoteEnd) by {
      forall k | 0 <= k < |NoteEnd| ensures NoteEnd[k] != '\n' { }
    }
    assert NoNewline(NoteStart + NoteMiddle);
    assert NoNewline(DefaultNote);
  }

  /** A line as `readlines` yields it: not empty, and a newline only as its last character. */
  predicate IsLine(l: string) {
    l != [] && '\n' !in l[..|l| - 1]
  }

  predicate EndsWithNewline(l: string) {
    l != [] && l[|l| - 1] == '\n'
  }

  /** Lines that `readlines` can return: every line but the last ends with a newline. */
  predicate WellFormed(lines: seq<string>) {
    forall k :: 0 <= k < |lines| ==> IsLine(lines[k]) && (k < |lines| - 1 ==> EndsWithNewline(lines[k]))
  }

  /** `writelines`: the lines one after the other. */
  function Concat(lines: seq<string>): string {
    if lines == [] then [] else lines[0] + Concat(lines[1..])
  }

  /** `readlines`: the text cut after every newline; writing the lines back gives the text. */
  function ReadLines(text: string): (lines: seq<string>)
    ensures Concat(lines) == text
    ensures WellFormed(lines)
    decreases |text|
  {
    if text == [] then []
    else
      var i := IndexOf(text, '\n');
      if i < |text| then
        var rest := ReadLines(text[i + 1..]);
        FirstLineCut(text, i);
        ConsLine(text[..i + 1], rest);
        [text[..i + 1]] + rest
      else
        WholeLine(text);
        [text]
  }

  /* Helpers of ReadLines, stated without IndexOf so that the solver does not loop. */
  lemma FirstLineCut(text: string, i: nat)
    requires i < |text| && text[i] == '\n'
    requires forall k :: 0 <= k < i ==> text[k] != '\n'
    ensures text == text[..i + 1] + text[i + 1..]
    ensures IsLine(text[..i + 1]) && EndsWithNewline(text[..i + 1])
  {
    assert text[..i + 1][..i] == text[..i];
  }

  lemma ConsLine(l: string, rest: seq<string>)
    requires IsLine(l) && EndsWithNewline(l) && WellFormed(rest)
    ensures Concat([l] + rest) == l + Concat(rest)
    ensures WellFormed([l] + rest)
  {
    assert ([l] + rest)[1..] == rest;
  }

  lemma WholeLine(text: string)
    requires text != [] && forall k :: 0 <= k < |text| ==> text[k] != '\n'
    ensures Concat([text]) == text && WellFormed([text])
  {
    assert Concat([text]) == text + [];
  }

  /** Reading back what `writelines` wrote gives the same lines. */
  lemma {:induction false} ReadLinesConcat(lines: seq<string>)
    requires WellFormed(lines)
    ensures ReadLines(Concat(lines)) == lines
  {
    if lines != [] {
      var l, rest := lines[0], Concat(lines[1..]);
      var text := l + rest;
      var a := l[..|l| - 1];
      assert WellFormed(lines[1..]) by {
        forall k | 0 <= k < |lines[1..]|
          ensures IsLine(lines[1..][k]) && (k < |lines[1..]| - 1 ==> EndsWithNewline(lines[1..][k]))
        {
          assert lines[1..][k] == lines[k + 1];
        }
      }
      if EndsWithNewline(l) {
        assert l == a + ['\n'];
        assert text == a + ['\n'] + rest;
        IndexOfJoined(a, '\n', rest);
        assert text[..|a| + 1] == l;
        assert text[|a| + 1..] == rest;
        ReadLinesConcat(lines[1..]);
      } else {
        assert |lines| == 1;
        assert '\n' !in l by {
          assert l == a + [l[|l| - 1]];
        }
        assert text == l;
        IndexOfAbsent(l, '\n');
      }
    }
  }

  /** The newline `update_user_feedback` keeps: one exactly when the first line had one. */
  function NewlineOf(l: string): string {
    if EndsWithNewline(l) then "\n" else ""
  }

  /**
   * The text `update_user_feedback` writes: everything before the first
   * newline replaced by the timestamp, or the timestamp and a newline when
   * the file is empty.
   */
  function UpdatedText(text: string, timestamp: string): string {
    if text == [] then timestamp + "\n"
    else timestamp + text[IndexOf(text, '\n')..]
  }

  /** The file as `init_user_feedback` writes it. */
  function InitText(timestamp: string): string {
    timestamp + "\n" + DefaultNote + "\n"
  }

  /** Replacing the first of the lines of a non-empty text is replacing what comes before its first newline. */
  lemma ReplaceFirstLine(text: string, timestamp: string)
    requires text != []
    ensures var lines := ReadLines(text);
      lines != [] && Concat(lines[0 := timestamp + NewlineOf(lines[0])]) == UpdatedText(text, timestamp)
  {
    var lines := ReadLines(text);
    ReadLinesHead(text);
    FirstNewlineKept(text);
    var nl, tail := NewlineOf(lines[0]), Concat(lines[1..]);
    ConcatNewHead(lines, timestamp + nl);
    Associative(timestamp, nl, tail);
  }

  lemma Associative(a: string, b: string, c: string)
    ensures (a + b) + c == a + (b + c)
  {
  }

  /** From the first newline on, a text is the first line's newline followed by the later lines. */
  lemma FirstNewlineKept(text: string)
    ensures var i := IndexOf(text, '\n');
      var j := if i < |text| then i + 1 else |text|;
      text[i..] == NewlineOf(text[..j]) + text[j..]
  {
    var i := IndexOf(text, '\n');
    if i < |text| {
      KeptFromNewline(text, i);
    } else {
      KeptWithoutNewline(text, i);
    }
  }

  /*
   * The two cases of FirstNewlineKept, stated without IndexOf: slice
   * reasoning next to IndexOf's postcondition makes the solver loop.
   */
  lemma KeptFromNewline(text: string, i: nat)
    requires i < |text| && text[i] == '\n'
    ensures text[i..] == NewlineOf(text[..i + 1]) + text[i + 1..]
  {
    var l := text[..i + 1];
    assert l[|l| - 1] == '\n';
    assert NewlineOf(l) == "\n";
    assert text[i..] == [text[i]] + text[i + 1..];
  }

  lemma KeptWithoutNewline(text: string, i: nat)
    requires i == |text| && '\n' !in text
    ensures text[i..] == NewlineOf(text[..i]) + text[i..]
  {
    assert !EndsWithNewline(text[..i]) by {
      if text != [] {
        assert text[..i][i - 1] == text[i - 1];
      }
    }
    assert text[i..] == [];
  }

  lemma ConcatNewHead(lines: seq<string>, head: string)
    requires lines != []
    ensures Concat(lines[0 := head]) == head + Concat(lines[1..])
  {
    assert lines[0 := head][1..] == lines[1..];
  }

  /** The first line `readlines` yields runs up to and including the first newline; the others hold the rest. */
  lemma ReadLinesHead(text: string)
    requires text != []
    ensures var i := IndexOf(text, '\n');
      var j := if i < |text| then i + 1 else |text|;
      var lines := ReadLines(text);
      lines != [] && lines[0] == text[..j] && Concat(lines[1..]) == text[j..]
  {
    var i := IndexOf(text, '\n');
    var lines := ReadLines(text);
    if i < |text| {
      assert lines[1..] == ReadLines(text[i + 1..]);
    } else {
      assert lines[1..] == [];
    }
  }

  /** The file as the script sees it: its text, or nothing when it does not exist. */
  class FeedbackFile {
    var text: Option<string>

    constructor (text: Option<string>)
      ensures this.text == text
    {
      this.text := text;
    }

    /** `update_user_feedback`: 2 and no write for a missing file, otherwise the first line replaced and 0. */
    method Update(timestamp: string) returns (code: int)
      modifies this
      ensures old(text).None? ==> code == 2 && text == old(text)
      ensures old(text).Some? ==> code == 0 && text == Some(UpdatedText(old(text).value, timestamp))
    {
      if text.None? {
        return 2;
      }
      var lines := ReadLines(text.value);
      if |lines| == 0 {
        assert text.value == [];
        lines := [timestamp + "\n"];
        assert lines[1..] == [];
      } else {
        ReplaceFirstLine(text.value, timestamp);
        var newline := if EndsWithNewline(lines[0]) then "\n" else "";
        lines := lines[0 := timestamp + newline];
      }
      assert Concat(lines) == UpdatedText(old(text).value, timestamp);
      text := Some(Concat(lines));
      return 0;
    }

    /** `init_user_feedback`: 2 and no write when the file exists and `force` is off, otherwise the two lines and 0. */
    method Init(force: bool, timestamp: string) returns (code: int)
      modifies this
      ensures old(text).Some? && !force ==> code == 2 && text == old(text)
      ensures old(text).None? || force ==> code == 0 && text == Some(InitText(timestamp))
    {
      if text.Some? && !force {
        return 2;
      }
      var written := timestamp + "\n";
      written := written + DefaultNote + "\n";
      text := Some(written);
      return 0;
    }
  }

  /** The first line `check_user_feedback` reads, with white space trimmed. */
  function FirstLineOf(text: string): string {
    if text == [] then "" else TrimSpace(ReadLines(text)[0])
  }

  datatype Checked = Checked(code: int, output: string)

  /**
   * `check_user_feedback`: 2 for a missing file, an empty first line or one
   * the timestamp parser `parse` rejects; otherwise 0 and "true" when the
   * modification time `mtime` is later than the timestamp plus `threshold`,
   * and 1 and "false" when it is not.
   */
  function CheckUserFeedback(file: Option<string>, parse: string -> Option<real>, mtime: real, threshold: real): (r: Checked)
    ensures r.code == 2 <==> file.None? || FirstLineOf(file.value) == "" || parse(FirstLineOf(file.value)).None?
    ensures r.code == 0 <==> r.output == "true"
    ensures r.code == 1 <==> r.output == "false"
    ensures r.code == 0 <==>
      file.Some? && FirstLineOf(file.value) != "" && parse(FirstLineOf(file.value)).Some?
      && mtime > parse(FirstLineOf(file.value)).value + threshold
    ensures r.code == 1 <==>
      file.Some? && FirstLineOf(file.value) != "" && parse(FirstLineOf(file.value)).Some?
      && !(mtime > parse(FirstLineOf(file.value)).value + threshold)
  {
    match file
    case None => Checked(2, "")
    case Some(text) =>
      var line := FirstLineOf(text);
      if line == "" then Checked(2, "")
      else
        match parse(line)
        case None => Checked(2, "")
        case Some(ts) =>
          if mtime > ts + threshold then Checked(0, "true") else Checked(1, "false")
  }

  /**
   * After an update the lines read back are the timestamp line followed by
   * every later line of the old file, unchanged and as many as before.
   */
  lemma UpdateKeepsLaterLines(text: string, timestamp: string)
    requires timestamp != [] && '\n' !in timestamp
    ensures text == [] ==> ReadLines(UpdatedText(text, timestamp)) == [timestamp + "\n"]
    ensures text != [] ==>
      var old_ := ReadLines(text);
      var new_ := ReadLines(UpdatedText(text, timestamp));
      |new_| == |old_| && new_[0] == timestamp + NewlineOf(old_[0]) && new_[1..] == old_[1..]
  {
    if text == [] {
      var lines := [timestamp + "\n"];
      assert lines[0][..|lines[0]| - 1] == timestamp;
      assert lines[1..] == [];
      assert Concat(lines) == timestamp + "\n";
      assert UpdatedText(text, timestamp) == timestamp + "\n";
      ReadLinesConcat(lines);
    } else {
      var lines := ReadLines(text);
      ReplaceFirstLine(text, timestamp);
      var changed := lines[0 := timestamp + NewlineOf(lines[0])];
      assert WellFormed(changed) by {
        var first := changed[0];
        assert first[..|first| - 1] == timestamp || first == timestamp;
        if |lines| > 1 {
          assert EndsWithNewline(lines[0]);
        }
        forall k | 0 < k < |changed|
          ensures changed[k] == lines[k]
        {
        }
      }
      ReadLinesConcat(changed);
      assert changed[1..] == lines[1..];
    }
  }

  /** Updating twice with the same timestamp leaves the file as updating once. */
  lemma UpdateIdempotent(text: string, timestamp: string)
    requires timestamp != [] && '\n' !in timestamp
    ensures UpdatedText(UpdatedText(text, timestamp), timestamp) == UpdatedText(text, timestamp)
  {
    var u := UpdatedText(text, timestamp);
    if text == [] {
      IndexOfJoined(timestamp, '\n', "");
      assert u == timestamp + ['\n'] + "";
    } else {
      var i := IndexOf(text, '\n');
      if i < |text| {
        assert u == timestamp + ['\n'] + text[i + 1..];
        IndexOfJoined(timestamp, '\n', text[i + 1..]);
      } else {
        assert u == timestamp;
        IndexOfAbsent(timestamp, '\n');
      }
    }
  }

  /** `init` writes exactly the timestamp line and the note line. */
  lemma InitLines(timestamp: string)
    requires timestamp != [] && '\n' !in timestamp
    ensures ReadLines(InitText(timestamp)) == [timestamp + "\n", DefaultNote + "\n"]
  {
    var lines := [timestamp + "\n", DefaultNote + "\n"];
    NoteIsOneLine();
    assert lines[0][..|lines[0]| - 1] == timestamp;
    assert lines[1][..|lines[1]| - 1] == DefaultNote;
    assert lines[1..] == [lines[1]] && lines[1..][1..] == [];
    assert Concat(lines[1..]) == lines[1];
    assert Concat(lines) == lines[0] + lines[1];
    assert lines[0] + lines[1] == InitText(timestamp);
    ReadLinesConcat(lines);
  }

  /** Updating a freshly initialised file keeps the note and changes only the timestamp. */
  lemma UpdateAfterInit(first: string, later: string)
    requires '\n' !in first
    ensures UpdatedText(InitText(first), later) == InitText(later)
  {
    var t := InitText(first);
    InitShape(first);
    InitShape(later);
    IndexOfJoined(first, '\n', DefaultNote + "\n");
    SuffixAfter(first, "\n" + DefaultNote + "\n");
  }

  /** The initial text is the timestamp followed by a newline-led remainder that does not depend on it. */
  lemma InitShape(timestamp: string)
    ensures InitText(timestamp) == timestamp + ['\n'] + (DefaultNote + "\n")
    ensures InitText(timestamp) == timestamp + ("\n" + DefaultNote + "\n")
  {
    Regroup(timestamp, "\n", DefaultNote, "\n");
  }

  lemma Regroup(a: string, b: string, c: string, d: string)
    ensures ((a + b) + c) + d == (a + b) + (c + d)
    ensures ((a + b) + c) + d == a + ((b + c) + d)
  {
  }

  lemma SuffixAfter(a: string, b: string)
    ensures (a + b)[|a|..] == b
  {
  }

  lemma TrimSpaceNewline(s: string)
    requires s != [] && Trimmed(s)
    ensures TrimSpace(s + "\n") == s
  {
    assert TrimLeftSpace(s + "\n") == s + "\n";
    assert (s + "\n")[..|s|] == s;
    TrimSpaceOfTrimmed(s);
  }

  /**
   * `check` reads back the timestamp `update` wrote: after an update with a
   * trimmed timestamp the parser sees exactly that timestamp.
   */
  lemma CheckAfterUpdate(text: string, timestamp: string, parse: string -> Option<real>, mtime: real, threshold: real)
    requires timestamp != [] && '\n' !in timestamp && Trimmed(timestamp)
    ensures FirstLineOf(UpdatedText(text, timestamp)) == timestamp
    ensures var r := CheckUserFeedback(Some(UpdatedText(text, timestamp)), parse, mtime, threshold);
      match parse(timestamp)
      case None => r.code == 2
      case Some(ts) => r.code == (if mtime > ts + threshold then 0 else 1)
  {
    UpdateKeepsLaterLines(text, timestamp);
    var lines := ReadLines(UpdatedText(text, timestamp));
    assert lines != [] && Concat(lines) != [];
    if lines[0] == timestamp + "\n" {
      TrimSpaceNewline(timestamp);
    } else {
      assert lines[0] == timestamp + "";
      TrimSpaceOfTrimmed(timestamp);
    }
  }
}
