/**
 * The `SKILL.md` front matter reader of installer.go: a block of
 * `key: value` lines between a first line `---` and the next `---` line,
 * from which only `name:` and `description:` are taken.
 */
module Frontmatter {
  import opened Text
  import opened FileTree

  /** The two fields the installer reads; either may be empty. */
  datatype Fields = Fields(name: string, description: string)

  const Delimiter: string := "---"
  const NameKey: string := "name:"
  const DescriptionKey: string := "description:"

  function Chars(b: seq<byte>): (s: string)
    ensures |s| == |b|
  {
    seq(|b|, i requires 0 <= i < |b| => (b[i] as int) as char)
  }

  function NewlineIndex(data: seq<byte>): (i: nat)
    ensures i <= |data|
    ensures forall k :: 0 <= k < i ==> data[k] != 10
    ensures i < |data| ==> data[i] == 10
  {
    if data == [] || data[0] == 10 then 0 else 1 + NewlineIndex(data[1..])
  }

  /** Drops one trailing carriage return, as `bufio.ScanLines` does. */
  function DropCR(line: seq<byte>): seq<byte> {
    if |line| > 0 && line[|line| - 1] == 13 then line[..|line| - 1] else line
  }

  /** The lines `bufio.Scanner` yields with `ScanLines`: no final empty line after a last newline. */
  function ScanLines(data: seq<byte>): seq<string>
    decreases |data|
  {
    if data == [] then []
    else
      var i := NewlineIndex(data);
      if i < |data| then [Chars(DropCR(data[..i]))] + ScanLines(data[i + 1..])
      else [Chars(DropCR(data))]
  }

  predicate IsDelimiter(line: string) {
    TrimSpace(line) == Delimiter
  }

  /** The first index at or after `i` that holds a delimiter line, or `|lines|`. */
  function ClosingIndex(lines: seq<string>, i: nat): (c: nat)
    requires i <= |lines|
    ensures i <= c <= |lines|
    ensures c < |lines| ==> IsDelimiter(lines[c])
    decreases |lines| - i
  {
    if i == |lines| || IsDelimiter(lines[i]) then i else ClosingIndex(lines, i + 1)
  }

  /** The value given by the last line of `block` that starts with `key` once trimmed, or "". */
  function LastValue(block: seq<string>, key: string): (v: string)
    ensures Trimmed(v)
  {
    if block == [] then ""
    else
      var t := TrimSpace(block[|block| - 1]);
      if HasPrefix(t, key) then TrimSpace(TrimPrefix(t, key)) else LastValue(block[..|block| - 1], key)
  }

  /**
   * What the front matter of a file with these lines declares: nothing
   * unless the first line is a delimiter; otherwise the last `name:` and
   * `description:` lines before the closing delimiter (or the end).
   */
  function FrontmatterOf(lines: seq<string>): Fields
  {
    if |lines| == 0 || !IsDelimiter(lines[0]) then Fields("", "")
    else
      var block := lines[1..ClosingIndex(lines, 1)];
      Fields(LastValue(block, NameKey), LastValue(block, DescriptionKey))
  }

  /** `parseSkillFrontmatter`, over the lines the scanner yields. */
  method ParseFrontmatter(lines: seq<string>) returns (name: string, desc: string)
    ensures Fields(name, desc) == FrontmatterOf(lines)
    ensures (|lines| == 0 || !IsDelimiter(lines[0])) ==> name == "" && desc == ""
    ensures Trimmed(name) && Trimmed(desc)
  {
    var lineNo := 0;
    var inFrontmatter := false;
    name, desc := "", "";
    while lineNo < |lines|
      invariant 0 <= lineNo <= |lines|
      invariant !inFrontmatter ==> lineNo == 0 && name == "" && desc == ""
      invariant inFrontmatter ==> 1 <= lineNo && IsDelimiter(lines[0])
      invariant inFrontmatter ==> ClosingIndex(lines, 1) == ClosingIndex(lines, lineNo)
      invariant inFrontmatter ==> name == LastValue(lines[1..lineNo], NameKey)
      invariant inFrontmatter ==> desc == LastValue(lines[1..lineNo], DescriptionKey)
    {
      var line := lines[lineNo];
      lineNo := lineNo + 1;
      if lineNo == 1 && TrimSpace(line) == Delimiter {
        inFrontmatter := true;
        continue;
      }
      if inFrontmatter && TrimSpace(line) == Delimiter {
        break;
      }
      if !inFrontmatter {
        break;
      }
      var trimmed := TrimSpace(line);
      BlockStep(lines, lineNo, NameKey);
      BlockStep(lines, lineNo, DescriptionKey);
      if HasPrefix(trimmed, NameKey) {
        name := TrimSpace(TrimPrefix(trimmed, NameKey));
      }
      if HasPrefix(trimmed, DescriptionKey) {
        desc := TrimSpace(TrimPrefix(trimmed, DescriptionKey));
      }
    }
  }

  /** One more block line: it is not the closing delimiter, and it overrides the key's value when it sets the key. */
  lemma BlockStep(lines: seq<string>, n: nat, key: string)
    requires 2 <= n <= |lines| && !IsDelimiter(lines[n - 1])
    ensures ClosingIndex(lines, n - 1) == ClosingIndex(lines, n)
    ensures var t := TrimSpace(lines[n - 1]);
      LastValue(lines[1..n], key)
        == if HasPrefix(t, key) then TrimSpace(TrimPrefix(t, key)) else LastValue(lines[1..n - 1], key)
  {
    assert lines[1..n] == lines[1..n - 1] + [lines[n - 1]];
    LastValueSnoc(lines[1..n - 1], lines[n - 1], key);
  }

  lemma LastValueSnoc(block: seq<string>, line: string, key: string)
    ensures var t := TrimSpace(line);
      LastValue(block + [line], key)
        == if HasPrefix(t, key) then TrimSpace(TrimPrefix(t, key)) else LastValue(block, key)
  {
    assert (block + [line])[..|block|] == block;
  }

  lemma {:induction false} ClosingIndexOfLonger(lines: seq<string>, rest: seq<string>, i: nat, k: nat)
    requires i <= k < |lines| && IsDelimiter(lines[k])
    ensures ClosingIndex(lines + rest, i) == ClosingIndex(lines, i)
    decreases k - i
  {
    assert (lines + rest)[i] == lines[i];
    if !IsDelimiter(lines[i]) {
      ClosingIndexOfLonger(lines, rest, i + 1, k);
    }
  }

  /** Once the block is closed, nothing after the closing delimiter is read. */
  lemma StopsAtClosingDelimiter(lines: seq<string>, rest: seq<string>, k: nat)
    requires 1 <= k < |lines| && IsDelimiter(lines[k])
    ensures FrontmatterOf(lines + rest) == FrontmatterOf(lines)
  {
    ClosingIndexOfLonger(lines, rest, 1, k);
    assert (lines + rest)[0] == lines[0];
    assert (lines + rest)[1..ClosingIndex(lines, 1)] == lines[1..ClosingIndex(lines, 1)];
  }

  /** A later line for a key overrides an earlier one. */
  lemma {:induction false} LaterLineOverrides(block: seq<string>, line: string, key: string, more: seq<string>)
    requires HasPrefix(TrimSpace(line), key)
    requires forall i :: 0 <= i < |more| ==> !HasPrefix(TrimSpace(more[i]), key)
    ensures LastValue(block + [line] + more, key) == TrimSpace(TrimPrefix(TrimSpace(line), key))
    decreases |more|
  {
    if more == [] {
      assert block + [line] + more == block + [line];
    } else {
      var all := block + [line] + more;
      assert all[..|all| - 1] == block + [line] + more[..|more| - 1];
      LaterLineOverrides(block, line, key, more[..|more| - 1]);
    }
  }

  /** The front matter a skill author writes for a name and a description. */
  function Render(name: string, description: string): seq<string> {
    [Delimiter, NameKey + " " + name, DescriptionKey + " " + description, Delimiter]
  }

  lemma KeyLineValue(key: string, value: string)
    requires key != [] && !IsSpace(key[0]) && !IsSpace(key[|key| - 1])
    requires Trimmed(value)
    ensures HasPrefix(TrimSpace(key + " " + value), key)
    ensures TrimSpace(TrimPrefix(TrimSpace(key + " " + value), key)) == value
  {
    var line := key + " " + value;
    if value == [] {
      assert TrimLeftSpace(line) == line;
      assert line[..|line| - 1] == key;
      assert TrimRightSpace(line) == TrimRightSpace(key) == key;
      assert TrimPrefix(key, key) == [];
    } else {
      assert Trimmed(line);
      TrimSpaceOfTrimmed(line);
      assert TrimPrefix(line, key) == [' '] + value;
      TrimSpaceSkipsLeadingSpace(' ', value);
      TrimSpaceOfTrimmed(value);
    }
  }

  lemma KeyLineIsNotDelimiter(key: string, value: string)
    requires key != [] && key[0] != '-' && !IsSpace(key[0])
    ensures !IsDelimiter(key + " " + value)
  {
    var line := key + " " + value;
    assert TrimLeftSpace(line) == line;
    var t := TrimSpace(line);
    assert t == [] || t[0] == key[0];
  }

  /** Reading back rendered front matter gives the name and description written. */
  lemma RenderRoundTrip(name: string, description: string, body: seq<string>)
    requires Trimmed(name) && Trimmed(description)
    ensures FrontmatterOf(Render(name, description) + body) == Fields(name, description)
  {
    var r := Render(name, description);
    RenderClosing(name, description);
    StopsAtClosingDelimiter(r, body, 3);
    assert r[1..3] == [r[1], r[2]];
    KeyLineValue(NameKey, name);
    KeyLineValue(DescriptionKey, description);
    KeysExclusive(TrimSpace(r[1]));
    KeysExclusive(TrimSpace(r[2]));
    TwoLineBlock(r[1], r[2], NameKey);
    TwoLineBlock(r[1], r[2], DescriptionKey);
  }

  /** The rendered block opens with a delimiter and closes at its fourth line. */
  lemma RenderClosing(name: string, description: string)
    ensures var r := Render(name, description);
      IsDelimiter(r[0]) && IsDelimiter(r[3]) && ClosingIndex(r, 1) == 3
  {
    var r := Render(name, description);
    assert IsDelimiter(Delimiter) by {
      TrimSpaceOfTrimmed(Delimiter);
    }
    KeyLineIsNotDelimiter(NameKey, name);
    KeyLineIsNotDelimiter(DescriptionKey, description);
    assert ClosingIndex(r, 3) == 3;
    assert ClosingIndex(r, 2) == 3;
  }

  /** No trimmed line starts with both keys. */
  lemma KeysExclusive(t: string)
    ensures HasPrefix(t, NameKey) ==> !HasPrefix(t, DescriptionKey)
  {
    if HasPrefix(t, NameKey) {
      assert t[0] == NameKey[0] == 'n';
    }
  }

  /** Each key of a two-line block takes the last of its lines that sets it. */
  lemma TwoLineBlock(first: string, second: string, key: string)
    ensures var t1, t2 := TrimSpace(first), TrimSpace(second);
      LastValue([first, second], key)
        == if HasPrefix(t2, key) then TrimSpace(TrimPrefix(t2, key))
           else if HasPrefix(t1, key) then TrimSpace(TrimPrefix(t1, key))
           else ""
  {
    LastValueSnoc([first], second, key);
    LastValueSnoc([], first, key);
    assert [first] + [second] == [first, second];
    assert [] + [first] == [first];
  }
}
