/** How a failure message shows the string it failed on: the exporter of
    string values. A printable string is put between single quotes with each
    line break shown as its escape followed by a real line break; a string
    holding other control characters is shown as the hexadecimal of its
    UTF-8 bytes. */
module Exporter {
  import Pretty
  import opened Wrappers

  /** `p` occurs in `s` at position `i`. */
  predicate OccursAt(s: string, p: string, i: int)
  {
    0 <= i && i + |p| <= |s| && s[i..i + |p|] == p
  }

  /** `p` occurs somewhere in `s`. */
  predicate Occurs(s: string, p: string)
  {
    exists i :: 0 <= i <= |s| && OccursAt(s, p, i)
  }

  /** `str_replace` with one search string: every occurrence of `p`, scanning
      left to right without overlaps, replaced by `r`. */
  function ReplaceAll(s: string, p: string, r: string): (t: string)
    requires |p| > 0
    decreases |s|
  {
    if |s| < |p| then s
    else if s[..|p|] == p then r + ReplaceAll(s[|p|..], p, r)
    else [s[0]] + ReplaceAll(s[1..], p, r)
  }

  /** Replacing a string that does not occur changes nothing. */
  lemma {:induction false} ReplaceAbsent(s: string, p: string, r: string)
    requires |p| > 0
    requires !Occurs(s, p)
    ensures ReplaceAll(s, p, r) == s
    decreases |s|
  {
    if |s| >= |p| {
      assert !OccursAt(s, p, 0);
      assert s[0..|p|] == s[..|p|];
      forall i | OccursAt(s[1..], p, i)
        ensures false
      {
        assert s[1..][i..i + |p|] == s[i + 1..i + 1 + |p|];
        assert OccursAt(s, p, i + 1);
      }
      ReplaceAbsent(s[1..], p, r);
      assert s == [s[0]] + s[1..];
    }
  }

  /** A character the exporter does not accept in a printable string: the
      control characters other than tab, line feed, vertical tab, form feed,
      carriage return and escape. */
  predicate IsBinaryChar(c: char)
  {
    c as int < 0x09 || (0x0E <= c as int < 0x20 && c as int != 0x1B)
  }

  predicate IsBinary(s: string)
  {
    exists i :: 0 <= i < |s| && IsBinaryChar(s[i])
  }

  /** The UTF-8 encoding of one character. */
  function Utf8(c: char): (bytes: seq<nat>)
    ensures 1 <= |bytes| <= 4
    ensures forall i :: 0 <= i < |bytes| ==> bytes[i] < 256
  {
    var n := c as int;
    if n < 0x80 then [n]
    else if n < 0x800 then [0xC0 + n / 64, 0x80 + n % 64]
    else if n < 0x10000 then [0xE0 + n / 4096, 0x80 + n / 64 % 64, 0x80 + n % 64]
    else [0xF0 + n / 262144, 0x80 + n / 4096 % 64, 0x80 + n / 64 % 64, 0x80 + n % 64]
  }

  /** Two lower-case hexadecimal digits per byte, as `bin2hex` writes them. */
  function HexBytes(bytes: seq<nat>): (h: string)
    requires forall i :: 0 <= i < |bytes| ==> bytes[i] < 256
    ensures |h| == 2 * |bytes|
  {
    if bytes == [] then []
    else [Pretty.HexDigit(bytes[0] / 16), Pretty.HexDigit(bytes[0] % 16)] + HexBytes(bytes[1..])
  }

  /** Reading pairs of hexadecimal digits back into bytes, as `hex2bin` does;
      `None` for an odd length or a character that is not a digit. */
  function FromHex(h: string): (r: Option<seq<nat>>)
    decreases |h|
  {
    if h == [] then Some([])
    else if |h| < 2 || Pretty.HexValue(h[0]) < 0 || Pretty.HexValue(h[1]) < 0 then None
    else
      match FromHex(h[2..])
      case None => None
      case Some(bytes) => Some([Pretty.HexValue(h[0]) * 16 + Pretty.HexValue(h[1])] + bytes)
  }

  /** The hexadecimal text of a byte string reads back as the bytes. */
  lemma {:induction false} HexBytesRoundTrip(bytes: seq<nat>)
    requires forall i :: 0 <= i < |bytes| ==> bytes[i] < 256
    ensures FromHex(HexBytes(bytes)) == Some(bytes)
  {
    if bytes != [] {
      var h := HexBytes(bytes);
      HexBytesRoundTrip(bytes[1..]);
      assert h[2..] == HexBytes(bytes[1..]);
      assert bytes == [bytes[0]] + bytes[1..];
    }
  }

  /** The UTF-8 encoding of a whole string: the bytes `bin2hex` is given. */
  function Utf8Of(s: string): (bytes: seq<nat>)
    ensures forall i :: 0 <= i < |bytes| ==> bytes[i] < 256
  {
    if s == [] then [] else Utf8(s[0]) + Utf8Of(s[1..])
  }

  /** `bin2hex` of the UTF-8 encoding of `s`, written character by character. */
  function HexOfText(s: string): string
  {
    if s == [] then [] else HexBytes(Utf8(s[0])) + HexOfText(s[1..])
  }

  /** The hexadecimal text of two byte strings put together is the two texts
      put together. */
  lemma {:induction false} HexBytesAppend(a: seq<nat>, b: seq<nat>)
    requires forall i :: 0 <= i < |a| ==> a[i] < 256
    requires forall i :: 0 <= i < |b| ==> b[i] < 256
    ensures HexBytes(a + b) == HexBytes(a) + HexBytes(b)
  {
    if a != [] {
      HexBytesAppend(a[1..], b);
      assert (a + b)[0] == a[0] && (a + b)[1..] == a[1..] + b;
    } else {
      assert a + b == b;
    }
  }

  /** Writing the hexadecimal character by character gives `bin2hex` of the
      whole UTF-8 encoding. */
  lemma {:induction false} HexOfTextBytes(s: string)
    ensures HexOfText(s) == HexBytes(Utf8Of(s))
  {
    if s != [] {
      HexOfTextBytes(s[1..]);
      HexBytesAppend(Utf8(s[0]), Utf8Of(s[1..]));
    }
  }

  /** The line-break rewriting of a printable string: the four search strings
      are replaced one after another over the whole text, each line break
      becoming its escape and a `<lf>` marker, and the markers then become
      real line breaks. */
  function ShowLineBreaks(s: string): string
  {
    var a := ReplaceAll(s, "\r\n", "\\r\\n<lf>");
    var b := ReplaceAll(a, "\n\r", "\\n\\r<lf>");
    var c := ReplaceAll(b, "\r", "\\r<lf>");
    var d := ReplaceAll(c, "\n", "\\n<lf>");
    ReplaceAll(d, "<lf>", "\n")
  }

  /** Each line feed shown as its escape followed by a real line break, every
      other character as itself. */
  function ShowLineFeeds(s: string): string
  {
    if s == [] then []
    else (if s[0] == '\n' then "\\n\n" else [s[0]]) + ShowLineFeeds(s[1..])
  }

  /** The exported form of a string value. A binary string is shown as the
      hexadecimal of its UTF-8 bytes, which reads back as those bytes; a
      printable string without carriage returns or `<lf>` markers is shown
      between single quotes with each line feed escaped and kept. */
  function Export(s: string): (e: string)
    ensures IsBinary(s) ==> e == "Binary String: 0x" + HexOfText(s)
    ensures !IsBinary(s) ==> e == "'" + ShowLineBreaks(s) + "'"
    ensures IsBinary(s) ==>
      e == "Binary String: 0x" + HexBytes(Utf8Of(s)) && FromHex(e[17..]) == Some(Utf8Of(s))
    ensures !IsBinary(s) && !Occurs(s, "\r") && !Occurs(s, "<lf>") ==>
      e == "'" + ShowLineFeeds(s) + "'"
  {
    if IsBinary(s) then
      var e := "Binary String: 0x" + HexOfText(s);
      HexOfTextBytes(s);
      HexBytesRoundTrip(Utf8Of(s));
      assert e[17..] == HexOfText(s);
      e
    else
      var e := "'" + ShowLineBreaks(s) + "'";
      assert !Occurs(s, "\r") && !Occurs(s, "<lf>") ==> e == "'" + ShowLineFeeds(s) + "'" by {
        if !Occurs(s, "\r") && !Occurs(s, "<lf>") {
          ShowLineBreaksWithoutCarriageReturn(s);
        }
      }
      e
  }

  /** Each line feed replaced by its escape and a `<lf>` marker. */
  function MarkLineFeeds(s: string): string
  {
    if s == [] then []
    else (if s[0] == '\n' then "\\n<lf>" else [s[0]]) + MarkLineFeeds(s[1..])
  }

  /** Replacing a line feed, a one-character search string, marks every line
      feed. */
  lemma {:induction false} LineFeedsMarked(s: string)
    ensures ReplaceAll(s, "\n", "\\n<lf>") == MarkLineFeeds(s)
  {
    if s != [] {
      LineFeedsMarked(s[1..]);
      assert s[..1] == [s[0]];
    }
  }

  /** A search string is not found at the head of `[a] + v` when `a` is not
      its first character, so the replacement moves on by one. */
  lemma StepPast(a: char, v: string, p: string, r: string)
    requires |p| > 0 && a != p[0]
    ensures ReplaceAll([a] + v, p, r) == [a] + ReplaceAll(v, p, r)
  {
    var w := [a] + v;
    assert w[1..] == v;
    if |w| >= |p| {
      assert w[..|p|][0] == a;
    }
  }

  /** A search string found at the head is replaced, and the scan goes on
      after it. */
  lemma StepMatch(p: string, v: string, r: string)
    requires |p| > 0
    ensures ReplaceAll(p + v, p, r) == r + ReplaceAll(v, p, r)
  {
    assert (p + v)[..|p|] == p && (p + v)[|p|..] == v;
  }

  /** If `[a] + v` does not start with the search string, the replacement
      moves on by one. */
  lemma StepNoMatch(a: char, v: string, p: string, r: string)
    requires |p| > 0
    requires !(|[a] + v| >= |p| && ([a] + v)[..|p|] == p)
    ensures ReplaceAll([a] + v, p, r) == [a] + ReplaceAll(v, p, r)
  {
    assert ([a] + v)[1..] == v;
  }

  /** Marking leaves a character other than a line feed or a backslash at the
      head, and the rest is the marking of the rest. */
  lemma MarkedHead(t: string)
    requires MarkLineFeeds(t) != [] && MarkLineFeeds(t)[0] != '\\'
    ensures t != [] && t[0] == MarkLineFeeds(t)[0] && t[0] != '\n'
    ensures MarkLineFeeds(t)[1..] == MarkLineFeeds(t[1..])
  {
  }

  /** Marking never builds `lf>` at the head out of anything but `lf>`. */
  lemma MarkedTail(t: string)
    requires |MarkLineFeeds(t)| >= 3 && MarkLineFeeds(t)[..3] == "lf>"
    ensures |t| >= 3 && t[..3] == "lf>"
  {
    var m := MarkLineFeeds(t);
    assert m[0] == 'l' && m[1] == 'f' && m[2] == '>';
    MarkedHead(t);
    assert MarkLineFeeds(t[1..])[0] == 'f';
    MarkedHead(t[1..]);
    assert MarkLineFeeds(t[2..])[0] == '>';
    assert t[1..][1..] == t[2..];
    MarkedHead(t[2..]);
  }

  /** `p` occurring in the tail of `s` occurs in `s`. */
  lemma OccursInTail(s: string, p: string)
    requires s != []
    requires Occurs(s[1..], p)
    ensures Occurs(s, p)
  {
    var i :| 0 <= i <= |s[1..]| && OccursAt(s[1..], p, i);
    assert s[1..][i..i + |p|] == s[i + 1..i + 1 + |p|];
    assert OccursAt(s, p, i + 1);
  }

  /** Two characters that cannot start the search string are passed over,
      and the search string right after them is replaced. */
  lemma PastTwoThenMatch(x: char, y: char, p: string, m: string, r: string)
    requires |p| > 0 && x != p[0] && y != p[0]
    ensures ReplaceAll([x, y] + p + m, p, r) == [x, y] + r + ReplaceAll(m, p, r)
  {
    assert [x, y] + p + m == [x] + ([y] + (p + m));
    StepPast(x, [y] + (p + m), p, r);
    StepPast(y, p + m, p, r);
    StepMatch(p, m, r);
    assert [x] + ([y] + (r + ReplaceAll(m, p, r))) == [x, y] + r + ReplaceAll(m, p, r);
  }

  /** The marker after an escaped line feed becomes a real line break. */
  lemma LineFeedMarkerShown(m: string)
    ensures ReplaceAll("\\n<lf>" + m, "<lf>", "\n") == "\\n\n" + ReplaceAll(m, "<lf>", "\n")
  {
    assert "\\n<lf>" == ['\\', 'n'] + "<lf>";
    assert "\\n\n" == ['\\', 'n'] + "\n";
    assert "<lf>"[0] == '<';
    PastTwoThenMatch('\\', 'n', "<lf>", m, "\n");
  }

  /** A character other than a line feed, in a string without `<lf>`, starts
      no marker and is kept. */
  lemma OtherCharKept(s: string)
    requires s != [] && s[0] != '\n'
    requires !Occurs(s, "<lf>")
    ensures ReplaceAll(MarkLineFeeds(s), "<lf>", "\n")
         == [s[0]] + ReplaceAll(MarkLineFeeds(s[1..]), "<lf>", "\n")
  {
    var m := MarkLineFeeds(s[1..]);
    assert MarkLineFeeds(s) == [s[0]] + m;
    if |[s[0]] + m| >= 4 && ([s[0]] + m)[..4] == "<lf>" {
      MarkerAtHead(s);
      assert false;
    }
    StepNoMatch(s[0], m, "<lf>", "\n");
  }

  /** A `<lf>` at the head of the marking of a string that does not start
      with a line feed was already in the string. */
  lemma MarkerAtHead(s: string)
    requires s != [] && s[0] != '\n'
    requires |[s[0]] + MarkLineFeeds(s[1..])| >= 4 && ([s[0]] + MarkLineFeeds(s[1..]))[..4] == "<lf>"
    ensures OccursAt(s, "<lf>", 0)
  {
    var m := MarkLineFeeds(s[1..]);
    assert m[..3] == ([s[0]] + m)[1..4];
    MarkedTail(s[1..]);
    assert s[1..][..3] == "lf>";
    assert s[..4] == [s[0]] + s[1..][..3];
  }

  /** In a string without `<lf>`, the only markers are the ones marking line
      feeds, and each becomes a real line break. */
  lemma {:induction false} MarkersShown(s: string)
    requires !Occurs(s, "<lf>")
    ensures ReplaceAll(MarkLineFeeds(s), "<lf>", "\n") == ShowLineFeeds(s)
    decreases |s|
  {
    if s != [] {
      if Occurs(s[1..], "<lf>") {
        OccursInTail(s, "<lf>");
      }
      MarkersShown(s[1..]);
      if s[0] == '\n' {
        assert MarkLineFeeds(s) == "\\n<lf>" + MarkLineFeeds(s[1..]);
        LineFeedMarkerShown(MarkLineFeeds(s[1..]));
      } else {
        OtherCharKept(s);
      }
    }
  }

  /** Without carriage returns and `<lf>` markers, the line-break rewriting
      escapes and keeps each line feed. */
  lemma ShowLineBreaksWithoutCarriageReturn(s: string)
    requires !Occurs(s, "\r") && !Occurs(s, "<lf>")
    ensures ShowLineBreaks(s) == ShowLineFeeds(s)
  {
    NoOccurrenceWithout(s, "\r\n", 0);
    ReplaceAbsent(s, "\r\n", "\\r\\n<lf>");
    NoOccurrenceWithout(s, "\n\r", 1);
    ReplaceAbsent(s, "\n\r", "\\n\\r<lf>");
    ReplaceAbsent(s, "\r", "\\r<lf>");
    LineFeedsMarked(s);
    MarkersShown(s);
  }

  /** The first three replacements leave a lone line feed alone. */
  lemma LineFeedKeptByCarriageReturnSteps()
    ensures ReplaceAll("\n", "\r\n", "\\r\\n<lf>") == "\n"
    ensures ReplaceAll("\n", "\n\r", "\\n\\r<lf>") == "\n"
    ensures ReplaceAll("\n", "\r", "\\r<lf>") == "\n"
  {
    assert "\n"[..1][0] == '\n';
    assert "\n"[1..] == [];
  }

  /** The fourth replacement turns a line feed into its escape and a marker. */
  lemma LineFeedMarked()
    ensures ReplaceAll("\n", "\n", "\\n<lf>") == "\\n<lf>"
  {
    assert "\n"[..1] == "\n" && "\n"[1..] == [];
  }

  /** The last replacement turns the marker into a real line break. */
  lemma MarkerBecomesLineBreak()
    ensures ReplaceAll("\\n<lf>", "<lf>", "\n") == "\\n\n"
  {
    var t := "\\n<lf>";
    assert t[..4] != "<lf>" && t[1..] == "n<lf>";
    assert t[1..][..4] != "<lf>" && t[2..] == "<lf>";
    assert t[2..][..4] == "<lf>" && t[2..][4..] == [];
    assert ReplaceAll(t[2..], "<lf>", "\n") == "\n";
  }

  /** A line feed is shown as its escape followed by a real line break. */
  lemma LineFeedShown()
    ensures ShowLineBreaks("\n") == "\\n\n"
  {
    LineFeedKeptByCarriageReturnSteps();
    LineFeedMarked();
    MarkerBecomesLineBreak();
  }

  /** The first replacement turns a carriage return and line feed pair into
      its escapes and one marker. */
  lemma PairMarked()
    ensures ReplaceAll("\r\n", "\r\n", "\\r\\n<lf>") == "\\r\\n<lf>"
  {
    assert "\r\n"[..2] == "\r\n" && "\r\n"[2..] == [];
  }

  /** The escaped pair holds no real line break, so the middle replacements
      leave it alone. */
  lemma MarkedPairKept()
    ensures ReplaceAll("\\r\\n<lf>", "\n\r", "\\n\\r<lf>") == "\\r\\n<lf>"
    ensures ReplaceAll("\\r\\n<lf>", "\r", "\\r<lf>") == "\\r\\n<lf>"
    ensures ReplaceAll("\\r\\n<lf>", "\n", "\\n<lf>") == "\\r\\n<lf>"
  {
    var t := "\\r\\n<lf>";
    AbsentFirstChar(t, "\n\r");
    ReplaceAbsent(t, "\n\r", "\\n\\r<lf>");
    AbsentFirstChar(t, "\r");
    ReplaceAbsent(t, "\r", "\\r<lf>");
    AbsentFirstChar(t, "\n");
    ReplaceAbsent(t, "\n", "\\n<lf>");
  }

  /** The marker after the escaped pair becomes a real line break. */
  lemma PairMarkerBecomesLineBreak()
    ensures ReplaceAll("\\r\\n<lf>", "<lf>", "\n") == "\\r\\n\n"
  {
    var t := "\\r\\n<lf>";
    assert t[4..] == "<lf>" && t[4..][..4] == "<lf>" && t[4..][4..] == [];
    assert ReplaceAll(t[4..], "<lf>", "\n") == "\n";
    assert t[3..][..4] != "<lf>" && t[3..][1..] == t[4..];
    assert t[2..][..4] != "<lf>" && t[2..][1..] == t[3..];
    assert t[1..][..4] != "<lf>" && t[1..][1..] == t[2..];
    assert t[..4] != "<lf>";
  }

  /** A carriage return and line feed pair is shown as its two escapes
      followed by a single real line break. */
  lemma CarriageReturnLineFeedShown()
    ensures ShowLineBreaks("\r\n") == "\\r\\n\n"
  {
    PairMarked();
    MarkedPairKept();
    PairMarkerBecomesLineBreak();
  }

  /** A printable one-line string without a `<lf>` marker is exported as
      itself between single quotes. */
  lemma ExportPlain(s: string)
    requires !IsBinary(s)
    requires !Occurs(s, "\r") && !Occurs(s, "\n") && !Occurs(s, "<lf>")
    ensures Export(s) == "'" + s + "'"
  {
    NoOccurrenceWithout(s, "\r\n", 0);
    ReplaceAbsent(s, "\r\n", "\\r\\n<lf>");
    NoOccurrenceWithout(s, "\n\r", 0);
    ReplaceAbsent(s, "\n\r", "\\n\\r<lf>");
    ReplaceAbsent(s, "\r", "\\r<lf>");
    ReplaceAbsent(s, "\n", "\\n<lf>");
    ReplaceAbsent(s, "<lf>", "\n");
  }

  /** A string whose first character never appears does not occur. */
  lemma AbsentFirstChar(s: string, p: string)
    requires |p| > 0
    requires forall i :: 0 <= i < |s| ==> s[i] != p[0]
    ensures !Occurs(s, p)
  {
    forall i | 0 <= i <= |s|
      ensures !OccursAt(s, p, i)
    {
      if i + |p| <= |s| {
        assert s[i..i + |p|][0] == s[i];
      }
    }
  }

  /** A string does not occur where one of its characters does not. */
  lemma NoOccurrenceWithout(s: string, p: string, k: nat)
    requires k < |p|
    requires !Occurs(s, [p[k]])
    ensures !Occurs(s, p)
  {
    forall i | OccursAt(s, p, i)
      ensures false
    {
      assert s[i + k..i + k + 1] == s[i..i + |p|][k..k + 1];
      assert OccursAt(s, [p[k]], i + k);
    }
  }
}
