/**
 bufio.ScanLines, the split function of the Scanner that reads the stored
 file: text up to each `\n` is one line, a final unterminated fragment is a
 line too, and one trailing `\r` is dropped from every line.
 */
module Bufio {
  import Strings

  /** Drops one trailing carriage return. */
  function DropCR(line: string): (r: string)
    ensures r == line || (line == r + "\r")
  {
    if |line| > 0 && line[|line| - 1] == '\r' then line[..|line| - 1] else line
  }

  function ScanLines(data: string): (lines: seq<string>)
    ensures forall i :: 0 <= i < |lines| ==> '\n' !in lines[i]
    ensures data == [] <==> lines == []
    decreases |data|
  {
    if data == [] then []
    else
      var i := Strings.IndexOf(data, '\n');
      if i < 0 then [DropCR(data)]
      else [DropCR(data[..i])] + ScanLines(data[i + 1..])
  }

  /** Each line followed by a newline, as a writer that ends every line produces it. */
  function Terminated(lines: seq<string>): string
  {
    if lines == [] then "" else lines[0] + "\n" + Terminated(lines[1..])
  }

  /** A line that the scanner gives back unchanged: no newline inside, no carriage return at its end. */
  predicate PlainLine(line: string)
  {
    '\n' !in line && (line == [] || line[|line| - 1] != '\r')
  }

  /** The scanner takes the text up to the first newline as one line, less a trailing `\r`, and carries on after it. */
  lemma ScanFirstLine(line: string, rest: string)
    requires '\n' !in line
    ensures ScanLines(line + "\n" + rest) == [DropCR(line)] + ScanLines(rest)
  {
    var data := line + "\n" + rest;
    var i := Strings.IndexOf(data, '\n');
    assert data[|line|] == '\n';
    assert i == |line|;
    assert data[..i] == line;
    assert data[i + 1..] == rest;
  }

  /** Scanning newline-terminated plain lines gives back exactly those lines. */
  lemma {:induction false} ScanTerminated(lines: seq<string>)
    requires forall i :: 0 <= i < |lines| ==> PlainLine(lines[i])
    ensures ScanLines(Terminated(lines)) == lines
  {
    if lines != [] {
      var data := Terminated(lines);
      var l := lines[0];
      assert data == l + "\n" + Terminated(lines[1..]);
      var i := Strings.IndexOf(data, '\n');
      assert data[|l|] == '\n';
      assert i == |l|;
      assert data[..i] == l;
      assert data[i + 1..] == Terminated(lines[1..]);
      ScanTerminated(lines[1..]);
    }
  }

}
