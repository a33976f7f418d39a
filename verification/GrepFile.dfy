/** grep.c's loop over a file: whole lines out of a buffer that reads of any length fill. */
module GrepFile {
  import opened Grep

  const BUFSIZE: nat := 1024

  // ---- Lines ------------------------------------------------------------------------------

  predicate HasLine(text: string) { '\n' in text }

  function FirstEnd(text: string): (k: nat)
    requires HasLine(text)
    ensures k < |text| && text[k] == '\n' && '\n' !in text[..k]
  {
    if text[0] == '\n' then 0 else FirstEnd(text[1..]) + 1
  }

  /** The lines that a newline ends, without it. */
  function Lines(text: string): seq<string>
    decreases |text|
  {
    if HasLine(text) then [text[..FirstEnd(text)]] + Lines(text[FirstEnd(text) + 1..]) else []
  }

  /** What follows the last newline. */
  function Tail(text: string): (t: string)
    ensures !HasLine(t)
    decreases |text|
  {
    if HasLine(text) then Tail(text[FirstEnd(text) + 1..]) else text
  }

  function Total(lines: seq<string>): nat {
    if lines == [] then 0 else |lines[0]| + 1 + Total(lines[1..])
  }

  lemma FirstEndIs(text: string, k: nat)
    requires k < |text| && text[k] == '\n' && '\n' !in text[..k]
    ensures HasLine(text) && FirstEnd(text) == k
  {
    assert forall j :: 0 <= j < k ==> text[j] in text[..k];
    assert forall j :: 0 <= j < FirstEnd(text) ==> text[j] in text[..FirstEnd(text)];
  }

  lemma LinesAt(text: string, k: nat)
    requires k < |text| && text[k] == '\n' && '\n' !in text[..k]
    ensures Lines(text) == [text[..k]] + Lines(text[k + 1..]) && Tail(text) == Tail(text[k + 1..])
  {
    FirstEndIs(text, k);
    hide FirstEnd, Lines, Tail;
    LinesUnfold(text);
  }

  lemma LinesUnfold(text: string)
    requires HasLine(text)
    ensures Lines(text) == [text[..FirstEnd(text)]] + Lines(text[FirstEnd(text) + 1..])
    ensures Tail(text) == Tail(text[FirstEnd(text) + 1..])
  {
    hide FirstEnd, HasLine;
  }

  lemma LinesNone(text: string)
    requires !HasLine(text)
    ensures Lines(text) == [] && Tail(text) == text
  {
  }

  /** Text after a text with a newline changes neither its lines nor where they end. */
  lemma {:induction false} LinesAppend(a: string, b: string)
    ensures Lines(a + b) == Lines(a) + Lines(Tail(a) + b)
    ensures Tail(a + b) == Tail(Tail(a) + b)
    decreases |a|
  {
    hide Lines, Tail, FirstEnd;
    if HasLine(a) {
      var k := FirstEnd(a);
      assert (a + b)[..k] == a[..k] && (a + b)[k + 1..] == a[k + 1..] + b;
      LinesAt(a, k);
      LinesAt(a + b, k);
      LinesAppend(a[k + 1..], b);
    } else {
      LinesNone(a);
    }
  }

  lemma {:induction false} TotalLines(text: string)
    ensures Total(Lines(text)) + |Tail(text)| == |text|
    decreases |text|
  {
    if HasLine(text) {
      var rest := text[FirstEnd(text) + 1..];
      TotalLines(rest);
      assert Lines(text)[1..] == Lines(rest);
    }
  }

  lemma {:induction false} TotalAppend(a: seq<string>, b: seq<string>)
    ensures Total(a + b) == Total(a) + Total(b)
  {
    if a == [] {
      assert a + b == b;
    } else {
      assert (a + b)[1..] == a[1..] + b;
      TotalAppend(a[1..], b);
    }
  }

  /** A newline in what follows hides what came before it from the tail. */
  lemma TailOf(a: string, b: string)
    requires !HasLine(a) && HasLine(b)
    ensures Tail(a + b) == Tail(b)
  {
    hide Lines, Tail, FirstEnd;
    var k := FirstEnd(b);
    assert (a + b)[..|a| + k] == a + b[..k] && (a + b)[|a| + k + 1..] == b[k + 1..];
    LinesAt(b, k);
    LinesAt(a + b, |a| + k);
  }

  // ---- What the loop does with the reads ----------------------------------------------------

  function Flat(chunks: seq<string>): string {
    if chunks == [] then "" else Flat(chunks[..|chunks| - 1]) + chunks[|chunks| - 1]
  }

  /** What the buffer keeps for the next read: the unfinished line, or nothing at all when the
      buffer held no newline. */
  function Kept(chunks: seq<string>): (k: string)
    ensures !HasLine(k)
    decreases |chunks|, 1
  {
    if chunks == [] then ""
    else
      var b := Filled(chunks);
      if HasLine(b) then Tail(b) else ""
  }

  /** The buffer after the last read. */
  function Filled(chunks: seq<string>): string
    requires chunks != []
    decreases |chunks|, 0
  {
    Kept(chunks[..|chunks| - 1]) + chunks[|chunks| - 1]
  }

  /** The lines that match is called on. */
  function Seen(chunks: seq<string>): seq<string> {
    if chunks == [] then [] else Seen(chunks[..|chunks| - 1]) + Lines(Filled(chunks))
  }

  /** How many characters have been thrown away. */
  function Dropped(chunks: seq<string>): nat {
    if chunks == [] then 0
    else Dropped(chunks[..|chunks| - 1]) + if HasLine(Filled(chunks)) then 0 else |Filled(chunks)|
  }

  /** What the reads may return: at least one character, no more than the buffer has room for
      besides its final NUL. */
  ghost predicate Readable(chunks: seq<string>) {
    forall r :: 0 <= r < |chunks| ==>
      0 < |chunks[r]| <= BUFSIZE - |Kept(chunks[..r])| - 1 && '\0' !in chunks[r]
  }

  lemma FilledLine(chunks: seq<string>)
    requires chunks != []
    ensures HasLine(Filled(chunks)) <==> HasLine(chunks[|chunks| - 1])
  {
    var a, b := Kept(chunks[..|chunks| - 1]), chunks[|chunks| - 1];
    if HasLine(b) {
      var k := FirstEnd(b);
      assert (a + b)[|a| + k] == '\n';
    }
  }

  /** Every character is in a line seen, kept, or thrown away. */
  lemma {:induction false} Accounted(chunks: seq<string>)
    ensures Total(Seen(chunks)) + |Kept(chunks)| + Dropped(chunks) == |Flat(chunks)|
  {
    if chunks != [] {
      var init := chunks[..|chunks| - 1];
      Accounted(init);
      TotalAppend(Seen(init), Lines(Filled(chunks)));
      TotalLines(Filled(chunks));
    }
  }

  lemma {:induction false} SomeDropped(chunks: seq<string>, r: nat)
    requires r < |chunks| && chunks[r] != "" && !HasLine(chunks[r])
    ensures Dropped(chunks) > 0
  {
    FilledLine(chunks);
    if r < |chunks| - 1 {
      SomeDropped(chunks[..|chunks| - 1], r);
    }
  }

  /** While every read brings a newline the loop sees what a single read would have seen. */
  lemma {:induction false} AllSeen(chunks: seq<string>)
    requires forall r :: 0 <= r < |chunks| ==> HasLine(chunks[r])
    ensures Seen(chunks) == Lines(Flat(chunks)) && Kept(chunks) == Tail(Flat(chunks))
  {
    if chunks != [] {
      var init := chunks[..|chunks| - 1];
      AllSeen(init);
      FilledLine(chunks);
      LinesAppend(Flat(init), chunks[|chunks| - 1]);
    }
  }

  /** No read without a newline comes before one with a newline. */
  ghost predicate Timely(chunks: seq<string>) {
    forall r, s :: 0 <= r < s < |chunks| && HasLine(chunks[s]) ==> HasLine(chunks[r])
  }

  /** grep looks at exactly the lines of its input, however the reads cut it up, if and only if
      no read without a newline comes before one with a newline. */
  lemma {:induction false} SeesLines(chunks: seq<string>)
    requires forall r :: 0 <= r < |chunks| ==> chunks[r] != ""
    ensures Seen(chunks) == Lines(Flat(chunks)) <==> Timely(chunks)
  {
    hide Seen, Lines, Flat, Timely;
    if forall r :: 0 <= r < |chunks| ==> HasLine(chunks[r]) {
      AllSeen(chunks);
      AllTimely(chunks);
    } else {
      var last := |chunks| - 1;
      if HasLine(chunks[last]) {
        var r :| 0 <= r < |chunks| && !HasLine(chunks[r]);
        LostLine(chunks, r);
      } else {
        SeesLines(chunks[..last]);
        QuietEnd(chunks);
      }
    }
  }

  lemma AllTimely(chunks: seq<string>)
    requires forall r :: 0 <= r < |chunks| ==> HasLine(chunks[r])
    ensures Timely(chunks)
  {
    hide HasLine;
  }

  /** A last read without a newline changes nothing. */
  lemma QuietEnd(chunks: seq<string>)
    requires chunks != [] && !HasLine(chunks[|chunks| - 1])
    ensures Seen(chunks) == Seen(chunks[..|chunks| - 1])
    ensures Lines(Flat(chunks)) == Lines(Flat(chunks[..|chunks| - 1]))
    ensures Timely(chunks) <==> Timely(chunks[..|chunks| - 1])
  {
    hide Timely;
    var init, c := chunks[..|chunks| - 1], chunks[|chunks| - 1];
    FilledLine(chunks);
    LinesAppend(Flat(init), c);
    NoLine(Tail(Flat(init)), c);
    TimelyInit(chunks);
  }

  lemma NoLine(a: string, b: string)
    requires !HasLine(a) && !HasLine(b)
    ensures Lines(a + b) == []
  {
  }

  lemma TimelyInit(chunks: seq<string>)
    requires chunks != [] && !HasLine(chunks[|chunks| - 1])
    ensures Timely(chunks) <==> Timely(chunks[..|chunks| - 1])
  {
    hide HasLine;
    var init := chunks[..|chunks| - 1];
    forall r | 0 <= r < |init| ensures init[r] == chunks[r] {
    }
  }

  lemma LostLine(chunks: seq<string>, r: nat)
    requires r < |chunks| - 1 && !HasLine(chunks[r]) && chunks[r] != "" && HasLine(chunks[|chunks| - 1])
    ensures Seen(chunks) != Lines(Flat(chunks)) && !Timely(chunks)
  {
    var init, c := chunks[..|chunks| - 1], chunks[|chunks| - 1];
    FilledLine(chunks);
    assert !Timely(chunks);
    hide Timely;
    SomeDropped(chunks, r);
    Accounted(chunks);
    TotalLines(Flat(chunks));
    TailOf(Kept(init), c);
    LinesAppend(Flat(init), c);
    TailOf(Tail(Flat(init)), c);
  }

  /** The first half of a line is lost when a read ends inside it. */
  lemma HalfLine()
    ensures Seen(["a", "b\n"]) == ["b"] && Lines(Flat(["a", "b\n"])) == ["ab"]
  {
    hide Lines, Tail, FirstEnd;
    var chunks := ["a", "b\n"];
    assert chunks[..1] == ["a"] && chunks[..1][..0] == [];
    LinesNone("");
    LinesNone("a");
    LinesAt("b\n", 1);
    LinesAt("ab\n", 2);
    assert Kept([]) == "" && Filled(["a"]) == "a";
    assert Kept(["a"]) == "" && Seen(["a"]) == [];
    assert Filled(chunks) == "b\n" && "b\n"[2..] == "" && "b\n"[..1] == "b";
    assert Flat(chunks) == "ab\n" && "ab\n"[3..] == "" && "ab\n"[..2] == "ab";
  }

  // ---- The loop -----------------------------------------------------------------------------

  /** What is written for these lines: the matching ones, in order. */
  ghost function Output(re: string, lines: seq<string>): string {
    if lines == [] then ""
    else
      var last := lines[|lines| - 1];
      Output(re, lines[..|lines| - 1]) + if Found(re, last) then last + "\n" else ""
  }

  /** Lines with their newlines. */
  function Ended(lines: seq<string>): string {
    if lines == [] then "" else Ended(lines[..|lines| - 1]) + lines[|lines| - 1] + "\n"
  }

  /** The matching lines, in order. */
  ghost function Matching(re: string, lines: seq<string>): seq<string> {
    if lines == [] then []
    else
      var last := lines[|lines| - 1];
      Matching(re, lines[..|lines| - 1]) + if Found(re, last) then [last] else []
  }

  /** A text is its lines with their newlines, and its tail; no line holds a newline. */
  lemma {:induction false} LinesSplit(text: string)
    ensures text == Ended(Lines(text)) + Tail(text)
    ensures forall i :: 0 <= i < |Lines(text)| ==> '\n' !in Lines(text)[i]
    decreases |text|
  {
    hide FirstEnd, Lines, Tail, Ended;
    if HasLine(text) {
      var k := FirstEnd(text);
      var rest := text[k + 1..];
      LinesSplit(rest);
      LinesAt(text, k);
      hide HasLine;
      EndedFirst(text[..k], Lines(rest));
      Glued(text, k, Ended(Lines(rest)), Tail(rest));
    } else {
      LinesNone(text);
      EndedNone();
    }
  }

  lemma EndedNone()
    ensures Ended([]) == ""
  {
  }

  lemma Glued(text: string, k: nat, e: string, t: string)
    requires k < |text| && text[k] == '\n' && text[k + 1..] == e + t
    ensures text == text[..k] + "\n" + e + t
  {
    assert text == text[..k] + [text[k]] + text[k + 1..];
  }

  lemma {:induction false} EndedFirst(l: string, lines: seq<string>)
    ensures Ended([l] + lines) == l + "\n" + Ended(lines)
  {
    var n := |lines|;
    if n == 0 {
      assert [l] + lines == [l] && [l][..0] == [];
    } else {
      EndedFirst(l, lines[..n - 1]);
      assert ([l] + lines)[..n] == [l] + lines[..n - 1];
    }
  }

  /** What is written is the matching lines, each with its newline. */
  lemma {:induction false} OutputIs(re: string, lines: seq<string>)
    ensures Output(re, lines) == Ended(Matching(re, lines))
  {
    hide Found;
    if lines != [] {
      var n := |lines| - 1;
      OutputIs(re, lines[..n]);
      var m := Matching(re, lines[..n]);
      if Found(re, lines[n]) {
        assert (m + [lines[n]])[..|m|] == m;
        assert Ended(m) + lines[n] + "\n" == Ended(m) + (lines[n] + "\n");
      } else {
        assert m + [] == m && Ended(m) + "" == Ended(m);
      }
    }
  }

  lemma OutputMore(re: string, lines: seq<string>, l: string)
    ensures Output(re, lines + [l]) == Output(re, lines) + if Found(re, l) then l + "\n" else ""
  {
    assert (lines + [l])[..|lines|] == lines;
  }

  /** strchr(p, '\n') on the NUL-terminated buffer; its end stands for a null result. */
  method Strchr(buf: array<char>, p: nat, m: nat) returns (q: nat)
    requires p <= m < buf.Length && buf[m] == '\0' && '\0' !in buf[p..m]
    ensures p <= q <= m && '\n' !in buf[p..q] && (q < m ==> buf[q] == '\n')
  {
    q := p;
    while buf[q] != '\0' && buf[q] != '\n'
      invariant p <= q <= m && '\n' !in buf[p..q]
      decreases m - q
    {
      assert buf[p..q + 1] == buf[p..q] + [buf[q]];
      q := q + 1;
    }
    assert q < m ==> buf[q] in buf[p..m];
  }

  /** The end of the C string at p. */
  method Strlen(buf: array<char>, p: nat, ghost q: nat) returns (e: nat)
    requires p <= q < buf.Length && buf[q] == '\0'
    ensures p <= e <= q && buf[e] == '\0' && '\0' !in buf[p..e]
  {
    e := p;
    while buf[e] != '\0'
      invariant p <= e <= q && '\0' !in buf[p..e]
      decreases q - e
    {
      assert buf[p..e + 1] == buf[p..e] + [buf[e]];
      e := e + 1;
    }
  }

  /** The newline at q is replaced by a NUL, so that match sees the line as a C string; the newline comes
      back, and the line is written, if it matches. */
  method WriteLine(re: string, buf: array<char>, p: nat, q: nat) returns (out: string)
    requires p <= q < buf.Length && '\0' !in buf[p..q]
    modifies buf
    ensures out == if Found(re, old(buf[p..q])) then old(buf[p..q]) + "\n" else ""
    ensures forall k :: 0 <= k < buf.Length && k != q ==> buf[k] == old(buf[k])
    ensures buf[q] == if Found(re, old(buf[p..q])) then '\n' else '\0'
  {
    hide Found;
    buf[q] := '\0';
    assert buf[p..q] == old(buf[p..q]);
    var e := Strlen(buf, p, q);
    assert e == q;
    var found := Match(re, buf[p..e]);
    out := "";
    if found {
      buf[q] := '\n';
      assert buf[p..q + 1] == old(buf[p..q]) + "\n";
      out := buf[p..q + 1];
    }
  }

  /** The first done lines of the text have been dealt with; the rest begins at p. */
  ghost predicate Upto(text: string, p: nat, done: seq<string>) {
    p <= |text| && Lines(text) == done + Lines(text[p..]) && Tail(text) == Tail(text[p..]) && (p == 0 <==> done == [])
  }

  lemma UptoStart(text: string)
    ensures Upto(text, 0, [])
  {
    assert text[0..] == text;
  }

  lemma UptoMore(text: string, p: nat, done: seq<string>, q: nat)
    requires Upto(text, p, done) && p <= q < |text| && text[q] == '\n' && '\n' !in text[p..q]
    ensures Upto(text, q + 1, done + [text[p..q]])
  {
    hide Lines, Tail;
    var rest := text[p..];
    assert rest[..q - p] == text[p..q] && rest[q - p + 1..] == text[q + 1..];
    LinesAt(rest, q - p);
  }

  lemma UptoEnd(text: string, p: nat, done: seq<string>)
    requires Upto(text, p, done) && '\n' !in text[p..]
    ensures Lines(text) == done && Tail(text) == text[p..] && (p == 0 <==> !HasLine(text))
  {
    LinesNone(text[p..]);
    if p > 0 && !HasLine(text) {
      LinesNone(text);
    }
  }

  /** The loop over the lines in the buffer; p is where the unfinished line begins. */
  method WriteLines(re: string, buf: array<char>, m: nat, ghost text: string) returns (p: nat, out: string)
    requires m < buf.Length && buf[..m] == text && buf[m] == '\0' && '\0' !in text
    modifies buf
    ensures p <= m && buf[p..m] == Tail(text) && out == Output(re, Lines(text)) && (p == 0 <==> !HasLine(text))
  {
    hide Upto, Output, Found, Lines, Tail, HasLine;
    p, out := 0, "";
    ghost var done: seq<string> := [];
    UptoStart(text);
    OutputNone(re);
    while true
      invariant p <= m && Upto(text, p, done) && buf[m] == '\0' && out == Output(re, done)
      invariant forall k :: p <= k < m ==> buf[k] == text[k]
      decreases m - p
    {
      assert buf[p..m] == text[p..];
      var q := Strchr(buf, p, m);
      assert buf[p..q] == text[p..q];
      if q == m {
        UptoEnd(text, p, done);
        return;
      }
      UptoMore(text, p, done, q);
      OutputMore(re, done, text[p..q]);
      assert '\0' !in text[p..q];
      var line := WriteLine(re, buf, p, q);
      out := out + line;
      done := done + [text[p..q]];
      p := q + 1;
    }
  }

  lemma OutputNone(re: string)
    ensures Output(re, []) == ""
  {
  }

  lemma {:induction false} OutputAppend(re: string, a: seq<string>, b: seq<string>)
    ensures Output(re, a + b) == Output(re, a) + Output(re, b)
  {
    hide Found;
    if b == [] {
      assert a + b == a;
    } else {
      var n := |b| - 1;
      assert (a + b)[..|a| + n] == a + b[..n];
      OutputAppend(re, a, b[..n]);
    }
  }

  /** read(fd, buf + m, ...) and the NUL after what it gave. */
  method Read(buf: array<char>, m: nat, chunk: string) returns (m1: nat)
    requires m + |chunk| < buf.Length
    modifies buf
    ensures m1 == m + |chunk| && buf[..m1] == old(buf[..m]) + chunk && buf[m1] == '\0'
  {
    forall k | 0 <= k < |chunk| { buf[m + k] := chunk[k]; }
    m1 := m + |chunk|;
    buf[m1] := '\0';
  }

  /** memmove(buf, p, m - p) */
  method MoveDown(buf: array<char>, p: nat, m: nat)
    requires p <= m <= buf.Length
    modifies buf
    ensures buf[..m - p] == old(buf[p..m])
  {
    forall k | 0 <= k < m - p { buf[k] := buf[p + k]; }
  }

  /** What stays in the buffer when it holds text. */
  function Left(text: string): string { if HasLine(text) then Tail(text) else "" }

  lemma {:induction false} TailFits(text: string)
    ensures |Tail(text)| <= |text| && (HasLine(text) ==> |Tail(text)| < |text|)
    ensures Tail(text) == text[|text| - |Tail(text)|..]
    decreases |text|
  {
    hide Lines, Tail, FirstEnd;
    if HasLine(text) {
      var k := FirstEnd(text);
      var rest := text[k + 1..];
      LinesAt(text, k);
      TailFits(rest);
      var t := |Tail(rest)|;
      assert rest[|rest| - t..] == text[|text| - t..];
    } else {
      LinesNone(text);
    }
  }

  lemma LeftFits(text: string)
    ensures |Left(text)| <= |text| && Left(text) == text[|text| - |Left(text)|..]
  {
    hide Tail, HasLine;
    TailFits(text);
  }

  /** Every read asks for at least one character, so that 0 only means the end of the file. */
  lemma AlwaysRoom(chunks: seq<string>)
    requires Readable(chunks)
    ensures |Kept(chunks)| < BUFSIZE - 1
  {
    hide Tail, HasLine;
    if chunks != [] {
      var r := |chunks| - 1;
      assert 0 < |chunks[r]| <= BUFSIZE - |Kept(chunks[..r])| - 1;
      TailFits(Filled(chunks));
    }
  }

  /** One round: a read, the lines it completes, and the unfinished line moved down. */
  method Round(re: string, buf: array<char>, m: nat, chunk: string) returns (m1: nat, out: string)
    requires m + |chunk| < buf.Length && '\0' !in buf[..m] && '\0' !in chunk
    modifies buf
    ensures m1 == |Left(old(buf[..m]) + chunk)| <= m + |chunk| && buf[..m1] == Left(old(buf[..m]) + chunk)
    ensures out == Output(re, Lines(old(buf[..m]) + chunk)) && '\0' !in buf[..m1]
  {
    hide Output, Lines, Tail, HasLine;
    ghost var text := buf[..m] + chunk;
    LeftFits(text);
    m1 := Read(buf, m, chunk);
    var p;
    p, out := WriteLines(re, buf, m1, text);
    if p == 0 {
      m1 := 0;
    }
    if m1 > 0 {
      MoveDown(buf, p, m1);
      m1 := m1 - p;
    }
  }

  lemma RoundDone(chunks: seq<string>, r: nat, re: string)
    requires r < |chunks|
    ensures Kept(chunks[..r + 1]) == Left(Kept(chunks[..r]) + chunks[r])
    ensures Output(re, Seen(chunks[..r + 1]))
         == Output(re, Seen(chunks[..r])) + Output(re, Lines(Kept(chunks[..r]) + chunks[r]))
  {
    hide Output, Lines, Tail;
    var now := chunks[..r + 1];
    assert now[..|now| - 1] == chunks[..r] && now[|now| - 1] == chunks[r];
    OutputAppend(re, Seen(chunks[..r]), Lines(Filled(now)));
  }

  /** grep: writes the matching ones of the lines it sees, and always has room for a read and
      the NUL after it. */
  method GrepChunks(re: string, chunks: seq<string>) returns (out: string)
    requires Readable(chunks)
    ensures out == Output(re, Seen(chunks))
    ensures Timely(chunks) ==> out == Output(re, Lines(Flat(chunks)))
  {
    hide Output, Seen, Kept, Lines, Left, Flat, HasLine, Timely;
    var buf := new char[BUFSIZE];
    var m: nat := 0;
    out := "";
    Nothing(re);
    for r := 0 to |chunks|
      invariant m <= buf.Length == BUFSIZE && buf[..m] == Kept(chunks[..r]) && '\0' !in buf[..m]
      invariant out == Output(re, Seen(chunks[..r]))
    {
      assert |Kept(chunks[..r])| == m;
      RoundDone(chunks, r, re);
      var more;
      m, more := Round(re, buf, m, chunks[r]);
      out := out + more;
    }
    assert chunks[..|chunks|] == chunks;
    SeesLines(chunks);
  }

  lemma Nothing(re: string)
    ensures Kept([]) == "" && Seen([]) == [] && Output(re, []) == ""
  {
  }
}
