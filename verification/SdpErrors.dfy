/** Which texts the session description parser takes (src/session/sdp/session_description.rs). */
module SdpErrors {
  import opened Common
  import opened Chars
  import opened Sdp
  import opened SdpText

  /** The key and the value of a line, if it has them. */
  function Field(line: string): Option<(string, string)> {
    SplitOnce(Trim(line), '=')
  }

  predicate IsHead(line: string) {
    Field(line).Some? && Field(line).value.0 == "m"
  }

  /** Line `j` opens the section that line `i` belongs to. */
  predicate HeadOf(lines: seq<string>, i: nat, j: nat)
    requires i <= |lines|
  {
    j < i && IsHead(lines[j]) && forall k :: j < k < i ==> !IsHead(lines[k])
  }

  /** The attribute stands in a section, and an rtpmap names one of that section's formats. */
  predicate Belongs(lines: seq<string>, i: nat, a: Attribute)
    requires i <= |lines|
  {
    exists j: nat :: j < i && HeadOf(lines, i, j) &&
      (a.RtpMap? ==> match ParseMedia(Field(lines[j]).value.1)
                     case Ok(md) => a.payloadType in md.fmts
                     case Err(_) => false)
  }

  /** The line is blank, or has a key: a section or an attribute that can be read, or anything under another key. */
  predicate Fine(lines: seq<string>, i: nat)
    requires i < |lines|
  {
    || Trim(lines[i]) == ""
    || match Field(lines[i])
       case None => false
       case Some((key, value)) =>
         if key == "m" then ParseMedia(value).Ok?
         else if key == "a" then ParseAttribute(value).Ok? && Belongs(lines, i, ParseAttribute(value).value)
         else true
  }

  lemma {:induction false} OneMoreLine(lines: seq<string>, line: string, media: seq<MediaDescription>)
    ensures ParseLines(lines + [line], media) == match ParseLines(lines, media)
                                                 case Ok(after) => OnLine(after, line)
                                                 case Err(e) => Err(e)
    decreases lines
  {
    hide OnLine;
    if lines == [] {
      assert [] + [line] == [line] && [line][1..] == [];
    } else {
      assert (lines + [line])[1..] == lines[1..] + [line];
      match OnLine(media, lines[0]) {
        case Ok(after) => OneMoreLine(lines[1..], line, after);
        case Err(_) =>
      }
    }
  }

  /** Of the lines before `n`: the sections read so far end with that of the latest head. */
  predicate EndsWithHead(lines: seq<string>, n: nat, media: seq<MediaDescription>)
    requires n <= |lines|
  {
    && (media == [] ==> forall j :: 0 <= j < n ==> !IsHead(lines[j]))
    && (media != [] ==> exists j: nat :: j < n && HeadOf(lines, n, j) && SameFormats(lines[j], media[|media| - 1]))
  }

  predicate SameFormats(head: string, md: MediaDescription) {
    IsHead(head) && match ParseMedia(Field(head).value.1) case Ok(first) => first.fmts == md.fmts case Err(_) => false
  }

  lemma OneHead(lines: seq<string>, n: nat, i: nat, j: nat)
    requires n <= |lines| && HeadOf(lines, n, i) && HeadOf(lines, n, j)
    ensures i == j
  {
  }

  /** One line in this state: taken exactly when it is fine, and the state goes on. */
  lemma LineTaken(lines: seq<string>, n: nat, media: seq<MediaDescription>)
    requires n < |lines| && EndsWithHead(lines, n, media)
    ensures var r := OnLine(media, lines[n]);
      (r.Ok? <==> Fine(lines, n)) && (r.Ok? ==> EndsWithHead(lines, n + 1, r.value))
  {
    hide ParseMedia, ParseAttribute, SplitOnce, Trim;
    var (r, line) := (OnLine(media, lines[n]), lines[n]);
    if media != [] {
      var j: nat :| j < n && HeadOf(lines, n, j) && SameFormats(lines[j], media[|media| - 1]);
      if !IsHead(line) {
        assert HeadOf(lines, n + 1, j);
      }
      forall i: nat | HeadOf(lines, n, i)
        ensures i == j
      {
        OneHead(lines, n, i, j);
      }
    }
    if IsHead(line) {
      assert HeadOf(lines, n + 1, n);
    }
  }

  predicate AllFine(lines: seq<string>) {
    forall i :: 0 <= i < |lines| ==> Fine(lines, i)
  }

  /** A text is taken exactly when each of its lines is fine. */
  lemma ParseOkExact(text: string)
    ensures Parse(text).Ok? <==> AllFine(Split(text, '\n'))
  {
    hide ParseLines, Split, Fine, EndsWithHead;
    var lines := Split(text, '\n');
    assert lines[..|lines|] == lines;
    PrefixTaken(lines, |lines|);
  }

  lemma {:induction false} PrefixTaken(lines: seq<string>, n: nat)
    requires n <= |lines|
    ensures var r := ParseLines(lines[..n], []);
      (r.Ok? <==> forall i :: 0 <= i < n ==> Fine(lines, i)) && (r.Ok? ==> EndsWithHead(lines, n, r.value))
  {
    hide OnLine, Fine, EndsWithHead;
    if n > 0 {
      PrefixTaken(lines, n - 1);
      assert lines[..n] == lines[..n - 1] + [lines[n - 1]];
      OneMoreLine(lines[..n - 1], lines[n - 1], []);
      if ParseLines(lines[..n - 1], []).Ok? {
        LineTaken(lines, n - 1, ParseLines(lines[..n - 1], []).value);
      }
    } else {
      NoLines(lines);
    }
  }

  lemma NoLines(lines: seq<string>)
    ensures EndsWithHead(lines, 0, [])
  {
  }
}
