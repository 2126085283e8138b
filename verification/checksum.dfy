/** The checksum comparison after each transfer: the remote `md5sum -b`
    output is parsed into a hex digest, compared with the digest of the
    bytes written locally, and the comparison is reported and acted on. */
module Checksum {
  import opened Wrappers
  import opened Text

  /** `readlines()[0]` on an empty output raises, which ends the script. */
  datatype ParseError = NoOutputLine

  /** The digest taken from `md5sum` output: the first line, stripped, up to
      its first space. */
  function ParseMd5Output(lines: seq<string>): (r: Result<string, ParseError>)
    ensures r.Failure? <==> lines == []
    ensures r.Success? ==> StartsWith(Strip(lines[0]), r.value) && ' ' !in r.value
  {
    if lines == [] then Failure(NoOutputLine)
    else Success(FirstField(Strip(lines[0])))
  }

  predicate IsHexDigit(c: char)
  {
    '0' <= c <= '9' || 'a' <= c <= 'f'
  }

  /** What `hexdigest()` and `md5sum` print: 32 lower-case hex digits. */
  predicate IsHexDigest(d: string)
  {
    |d| == 32 && forall k :: 0 <= k < |d| ==> IsHexDigit(d[k])
  }

  /** The text before the first space of a string that starts with a
      space-free word and a space is that word. */
  lemma {:induction false} FirstFieldOfWord(s: string, word: string)
    requires ' ' !in word && StartsWith(s, word + " ")
    ensures FirstField(s) == word
    decreases |word|
  {
    if word == [] {
      assert s[0] == (word + " ")[0];
    } else {
      assert s[0] == word[0];
      assert s[1..][..|word[1..] + " "|] == (word + " ")[1..];
      assert (word + " ")[1..] == word[1..] + " ";
      FirstFieldOfWord(s[1..], word[1..]);
    }
  }

  /** `md5sum -b <path>` prints `<digest> *<path>` and a newline; the parse
      gives the digest back, whatever the path and whatever lines follow. */
  lemma ParseMd5Line(digest: string, path: string, rest: seq<string>)
    requires IsHexDigest(digest)
    ensures ParseMd5Output([digest + " *" + path + "\n"] + rest) == Success(digest)
  {
    var line := digest + " *" + path + "\n";
    assert ([line] + rest)[0] == line;
    assert line[0] == digest[0];
    assert IsHexDigit(digest[0]);
    assert LeadingSpaces(line) == 0;
    var n := TrailingSpaces(line);
    assert line[|digest| + 1] == '*';
    assert n <= |line| - |digest| - 2;
    var stripped := Strip(line);
    assert stripped == line[..|line| - n];
    assert ' ' !in digest by {
      forall k | 0 <= k < |digest|
        ensures digest[k] != ' '
      {
        assert IsHexDigit(digest[k]);
      }
    }
    assert stripped[..|digest + " "|] == digest + " ";
    FirstFieldOfWord(stripped, digest);
  }

  /** The two outcomes of the comparison: the message of line 148 says
      "matching", and the local copy is deleted. */
  datatype Decision = Decision(reportsMatching: bool, deletesLocal: bool)

  /** Lines 148-152 as written: the message compares the remote digest
      with the local one, but the deletion guard compares the remote digest
      with itself, so no local copy is ever deleted. */
  function DecideAsWritten(sourceSum: string, localSum: string): (d: Decision)
    ensures d.reportsMatching <==> sourceSum == localSum
    ensures !d.deletesLocal
  {
    Decision(sourceSum == localSum, sourceSum != sourceSum)
  }

  /** The rule the message and the deletion branch evidently intend: the
      local copy is deleted exactly when the message says it does not
      match. */
  function Decide(sourceSum: string, localSum: string): (d: Decision)
    ensures d.deletesLocal <==> !d.reportsMatching
    ensures d.reportsMatching <==> sourceSum == localSum
  {
    Decision(sourceSum == localSum, sourceSum != localSum)
  }

  /** Which deletion guard applies at line 149: the one written, which
      compares the remote digest with itself, or the intended one, which
      compares it with the local digest. */
  datatype Rule = AsWritten | Intended

  function DecideWith(rule: Rule, sourceSum: string, localSum: string): Decision
  {
    if rule == AsWritten then DecideAsWritten(sourceSum, localSum) else Decide(sourceSum, localSum)
  }

  /** A copy whose digest differs from the remote one is reported as not
      matching and yet kept by the code as written; the intended rule
      deletes it. */
  lemma AsWrittenKeepsMismatchedCopy(sourceSum: string, localSum: string)
    requires sourceSum != localSum
    ensures !DecideAsWritten(sourceSum, localSum).reportsMatching
    ensures !DecideAsWritten(sourceSum, localSum).deletesLocal
    ensures Decide(sourceSum, localSum).deletesLocal
  {
  }

  /** The two rules agree on every matching copy and disagree on every
      mismatched one. */
  lemma RulesAgreeExactlyOnMatches(sourceSum: string, localSum: string)
    ensures DecideAsWritten(sourceSum, localSum) == Decide(sourceSum, localSum)
        <==> sourceSum == localSum
  {
  }
}
