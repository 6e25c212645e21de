/** The newline-terminated text format both endpoints share: the three
    messages that are built by formatting, and the number extraction
    `int(s.split('[')[1].split(']')[0])` both endpoints apply to an
    incoming line. */
module Wire {
  import opened Wrappers
  import opened PyStr

  /** The client's request `[n] PING`: one line with no whitespace at
      either end, so the receiver's `strip()` removes only the newline the
      sender appends. */
  function PingText(n: int): (r: string)
    ensures TrimmedBy(StrBlanks, r) && '\n' !in r
  {
    StampedTrimmed(n, "] PING");
    ShowIntLacks(n, '\n');
    "[" + ShowInt(n) + "] PING"
  }

  /** The server's reply `[c] PONG n (k)`: response id, request number,
      length of the server's client list; one line with no whitespace at
      either end. */
  function PongText(id: int, n: int, k: int): (r: string)
    ensures TrimmedBy(StrBlanks, r) && '\n' !in r
  {
    var rest := PongTail(n, k);
    StampedTrimmed(id, rest);
    ShowIntLacks(id, '\n');
    "[" + ShowInt(id) + rest
  }

  /** What follows the response id in a reply: `] PONG n (k)`. It ends in
      `)` and holds neither a newline nor a lower-case `k`. */
  function PongTail(n: int, k: int): (r: string)
    ensures |r| > 0 && r[|r| - 1] == ')'
    ensures '\n' !in r && 'k' !in r
  {
    ShowIntLacks(n, '\n');
    ShowIntLacks(k, '\n');
    ShowIntLacks(n, 'k');
    ShowIntLacks(k, 'k');
    TailShape(ShowInt(n), ShowInt(k));
    "] PONG " + ShowInt(n) + " (" + ShowInt(k) + ")"
  }

  lemma TailShape(a: string, b: string)
    requires '\n' !in a && 'k' !in a && '\n' !in b && 'k' !in b
    ensures var r := "] PONG " + a + " (" + b + ")";
      |r| > 0 && r[|r| - 1] == ')' && '\n' !in r && 'k' !in r
  {
  }

  /** The server's keepalive `[c] keepalive`: one line with no whitespace at
      either end, carrying the marker the client looks for. */
  function KeepaliveText(id: int): (r: string)
    ensures TrimmedBy(StrBlanks, r) && '\n' !in r
    ensures Contains(r, KeepaliveMarker)
  {
    StampedTrimmed(id, "] keepalive");
    ShowIntLacks(id, '\n');
    MarkerEnds(ShowInt(id));
    "[" + ShowInt(id) + "] keepalive"
  }

  /** `[<text>] keepalive` ends in the marker. */
  lemma MarkerEnds(t: string)
    ensures Contains("[" + t + "] keepalive", KeepaliveMarker)
  {
    var a := "[" + t + "] ";
    assert a + KeepaliveMarker == "[" + t + "] keepalive";
    ContainsSuffix(a, KeepaliveMarker);
  }

  /** What goes on the wire: the text followed by a newline. */
  function Line(text: string): string {
    text + "\n"
  }

  /** The marker the client looks for. */
  const KeepaliveMarker: string := "keepalive"

  /** `s.split('[')[1].split(']')[0]`: the text after the first `[`, cut at
      the next `[` or `]`. Indexing `[1]` raises `IndexError` when `s` has
      no `[`; indexing `[0]` never fails. */
  function BracketBody(s: string): (r: Result<string, Exception>)
    ensures r.Err? <==> '[' !in s
    ensures r.Err? ==> r.error == IndexError
    ensures r.Ok? ==> '[' !in r.value && ']' !in r.value
  {
    var parts := Split(s, '[');
    if |parts| < 2 then Err(IndexError)
    else Ok(Split(parts[1], ']')[0])
  }

  /** `int(s.split('[')[1].split(']')[0])`. */
  function ExtractNumber(s: string): (r: Result<int, Exception>)
    ensures '[' !in s ==> r == Err(IndexError)
    ensures '[' in s && r.Err? ==> r.error == ValueError
  {
    var body :- BracketBody(s);
    ParseInt(body)
  }

  predicate EndsBody(rest: string) {
    rest == [] || rest[0] == '[' || rest[0] == ']'
  }

  /** Reference reading of the extraction: in `a[b…` with no `[` in `a`, the
      body is the longest prefix `b` free of brackets. */
  lemma BracketBodyOf(a: string, b: string, rest: string)
    requires '[' !in a && '[' !in b && ']' !in b && EndsBody(rest)
    ensures BracketBody(a + "[" + b + rest) == Ok(b)
  {
    var s := a + "[" + b + rest;
    assert s == a + ['['] + (b + rest);
    SplitAtSep(a, b + rest, '[');
    var p1 := Split(b + rest, '[')[0];
    if rest == [] {
      assert b + rest == b;
      SplitNoSep(b, '[');
      SplitNoSep(b, ']');
    } else if rest[0] == '[' {
      assert b + rest == b + ['['] + rest[1..];
      SplitAtSep(b, rest[1..], '[');
      SplitNoSep(b, ']');
    } else {
      SplitPrepend(b, rest, '[');
      var r0 := Split(rest, '[')[0];
      assert rest == [']'] + rest[1..];
      SplitPrepend([']'], rest[1..], '[');
      assert r0 == [']'] + Split(rest[1..], '[')[0];
      assert p1 == b + [']'] + Split(rest[1..], '[')[0];
      SplitAtSep(b, Split(rest[1..], '[')[0], ']');
    }
  }

  /** Conversely, every successful extraction arises in that shape, so
      `BracketBodyOf` describes the extraction completely. */
  lemma BracketBodyShape(s: string) returns (a: string, rest: string)
    requires '[' in s
    ensures BracketBody(s).Ok?
    ensures s == a + "[" + BracketBody(s).value + rest
    ensures '[' !in a && EndsBody(rest)
  {
    var parts := Split(s, '[');
    JoinSplit(s, '[');
    a := parts[0];
    var tail := Join(parts[1..], '[');
    assert s == a + ['['] + tail;
    var after1 := JoinHead(parts[1..], '[');
    var p1 := parts[1];
    assert tail == p1 + after1;
    var q := Split(p1, ']');
    JoinSplit(p1, ']');
    var after2 := JoinHead(q, ']');
    var b := q[0];
    assert p1 == b + after2;
    rest := after2 + after1;
    assert s == a + "[" + b + rest;
  }

  /** A text `[<digits>]<rest>` yields the number the digits show. */
  lemma StampedYields(id: int, rest: string)
    requires EndsBody(rest)
    ensures ExtractNumber("[" + ShowInt(id) + rest) == Ok(id)
  {
    var digits := ShowInt(id);
    var t := "[" + digits + rest;
    assert '[' !in digits && ']' !in digits by {
      ShowIntLacks(id, '[');
      ShowIntLacks(id, ']');
    }
    assert t == [] + "[" + digits + rest;
    BracketBodyOf([], digits, rest);
    ParseShowInt(id);
  }

  /** A stamped text ending in a visible character has no whitespace at
      either end. */
  lemma StampedTrimmed(id: int, rest: string)
    requires |rest| > 0 && !IsBlank(StrBlanks, rest[|rest| - 1])
    ensures TrimmedBy(StrBlanks, "[" + ShowInt(id) + rest)
  {
    var t := "[" + ShowInt(id) + rest;
    assert t[0] == '[';
    assert t[|t| - 1] == rest[|rest| - 1];
  }

  /** The receiving side's `strip()` removes exactly the newline the sender
      appended. */
  lemma StripLine(t: string)
    requires TrimmedBy(StrBlanks, t)
    ensures Strip(Line(t)) == t
  {
    TrimPadded(StrBlanks, [], t, "\n");
    assert [] + t + "\n" == Line(t);
  }

  /** The client's request, as the server reads it after `strip()`, yields
      the request number it was built from. */
  lemma PingRoundTrip(n: int)
    ensures ExtractNumber(Strip(Line(PingText(n)))) == Ok(n)
  {
    StripLine(PingText(n));
    StampedYields(n, "] PING");
  }

  /** The server's reply yields its response id, not the request number it
      answers. */
  lemma PongYieldsResponseId(id: int, n: int, k: int)
    ensures ExtractNumber(Strip(Line(PongText(id, n, k)))) == Ok(id)
  {
    StripLine(PongText(id, n, k));
    StampedYields(id, PongTail(n, k));
  }

  /** The server's keepalive yields its response id. */
  lemma KeepaliveYieldsResponseId(id: int)
    ensures ExtractNumber(Strip(Line(KeepaliveText(id)))) == Ok(id)
  {
    StripLine(KeepaliveText(id));
    StampedYields(id, "] keepalive");
  }

  /** A leading run of text without `[` does not affect the extraction. */
  lemma BracketBodyPrepend(w: string, s: string)
    requires '[' !in w
    ensures BracketBody(w + s) == BracketBody(s)
  {
    SplitPrepend(w, s, '[');
  }

  /** Trailing whitespace either stays outside the body or is appended to it. */
  lemma BracketBodyAppendSpace(b: Blanks, s: string, w: string)
    requires AllBlank(b, w)
    ensures BracketBody(s + w).Ok? == BracketBody(s).Ok?
    ensures BracketBody(s).Ok? ==>
      BracketBody(s + w).value == BracketBody(s).value ||
      BracketBody(s + w).value == BracketBody(s).value + w
  {
    BlankLacks(b, w, '[');
    BlankLacks(b, w, ']');
    var p := Split(s, '[');
    SplitAppend(s, w, '[');
    if |p| == 2 {
      var q := Split(p[1], ']');
      SplitAppend(p[1], w, ']');
      assert Split(s + w, '[')[1] == p[1] + w;
    } else if |p| > 2 {
      assert Split(s + w, '[')[1] == p[1];
    }
  }

  /** Leading text without `[` does not change the extracted number. */
  lemma ExtractNumberPrepend(w: string, s: string)
    requires '[' !in w
    ensures ExtractNumber(w + s) == ExtractNumber(s)
  {
    BracketBodyPrepend(w, s);
  }

  /** Trailing whitespace of the kind `int()` skips does not change the
      extracted number. */
  lemma ExtractNumberAppendSpace(s: string, w: string)
    requires AllBlank(IntBlanks, w)
    ensures ExtractNumber(s + w) == ExtractNumber(s)
  {
    BracketBodyAppendSpace(IntBlanks, s, w);
    if BracketBody(s).Ok? {
      var b := BracketBody(s).value;
      if BracketBody(s + w).value != b {
        ParseIntAppendSpace(b, w);
      }
    }
  }

  /** Whitespace before a message, and whitespace of the kind `int()` skips
      after it, do not change the number extracted from it. */
  lemma ExtractNumberPadded(w1: string, m: string, w2: string)
    requires AllBlank(StrBlanks, w1) && AllBlank(IntBlanks, w2)
    ensures ExtractNumber(w1 + m + w2) == ExtractNumber(m)
  {
    BlankLacks(StrBlanks, w1, '[');
    assert w1 + m + w2 == w1 + (m + w2);
    ExtractNumberPrepend(w1, m + w2);
    ExtractNumberAppendSpace(m, w2);
  }

  /** Stripping a line first does not change the number extracted from it:
      whitespace outside the brackets is ignored by the split, and
      whitespace inside the body is ignored by `int()`. This needs a line
      without the separators 0x1c-0x1f, which `strip()` removes and `int()`
      does not skip (`SeparatorChangesNumber`). */
  lemma ExtractNumberStrip(s: string)
    requires forall k :: 0 <= k < |s| ==> !IsInfoSeparator(s[k])
    ensures ExtractNumber(Strip(s)) == ExtractNumber(s)
  {
    var w1, w2 := StripPaddingForInt(s);
    ExtractNumberPadded(w1, Strip(s), w2);
  }

  /** On a line whose first brackets hold a number followed by the
      separator 0x1c, the server (which strips first) reads the number, while
      extracting from the unstripped line raises `ValueError`. */
  lemma SeparatorChangesNumber(id: int)
    ensures ExtractNumber("[" + ShowInt(id) + [FileSeparator]) == Err(ValueError)
    ensures ExtractNumber(Strip("[" + ShowInt(id) + [FileSeparator])) == Ok(id)
  {
    ShowIntLacks(id, '[');
    ShowIntLacks(id, ']');
    SeparatorInBody(ShowInt(id));
    SeparatorStripped(id);
  }

  /** Stripping `[i` followed by 0x1c leaves `[i`, which yields `i`. */
  lemma SeparatorStripped(id: int)
    ensures ExtractNumber(Strip("[" + ShowInt(id) + [FileSeparator])) == Ok(id)
  {
    var d := ShowInt(id);
    var t := "[" + d;
    assert t[0] == '[' && t[|t| - 1] == d[|d| - 1];
    StripDropsSeparator(t);
    assert t == "[" + d + [];
    StampedYields(id, []);
  }

  /** A bracket body that ends in the separator 0x1c does not parse. */
  lemma SeparatorInBody(d: string)
    requires |d| > 0 && TrimmedBy(IntBlanks, d) && '[' !in d && ']' !in d
    ensures ExtractNumber("[" + d + [FileSeparator]) == Err(ValueError)
  {
    assert "[" + d + [FileSeparator] == [] + "[" + (d + [FileSeparator]) + [];
    BracketBodyOf([], d + [FileSeparator], []);
    ParseIntRejectsSeparator(d);
  }

  /** A non-integer body makes the extraction raise `ValueError`. */
  lemma NonIntegerBodyFails(a: string, b: string, rest: string)
    requires '[' !in a && '[' !in b && ']' !in b && EndsBody(rest)
    requires ParseInt(b).Err?
    ensures ExtractNumber(a + "[" + b + rest) == Err(ValueError)
  {
    BracketBodyOf(a, b, rest);
  }

  /** No reply carries the marker: a reply has no lower-case `k`. */
  lemma PongLacksMarker(id: int, n: int, k: int)
    ensures !Contains(PongText(id, n, k), KeepaliveMarker)
  {
    ShowIntLacks(id, 'k');
    var t := PongText(id, n, k);
    assert t == "[" + ShowInt(id) + PongTail(n, k);
    assert 'k' !in t;
    NotContainsMissingChar(t, KeepaliveMarker, 0);
  }
}
