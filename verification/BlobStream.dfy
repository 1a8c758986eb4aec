/** `tree_files` of scripts/governance_metrics.py: reading many files out of one length-prefixed
    stream, as `git cat-file --batch` writes it.  Bytes are characters here. */
module BlobStream {
  import opened Text

  datatype Blob = Blob(id: string, kind: string, body: string)

  predicate IsBlank(c: char) {
    c == ' ' || c == '\n' || c == '\t' || c == '\r' || c == '\U{000b}' || c == '\U{000c}'
  }

  predicate IsWord(s: string) {
    s != "" && forall i :: 0 <= i < |s| ==> !IsBlank(s[i])
  }

  /** `bytes.split()`: the words between runs of blanks. */
  function Words(s: string): seq<string> {
    if s == "" then []
    else if IsBlank(s[0]) then Words(s[1..])
    else
      var n := WordLength(s);
      [s[..n]] + Words(s[n..])
  }

  function WordLength(s: string): (n: nat)
    requires s != "" && !IsBlank(s[0])
    ensures 0 < n <= |s|
  {
    if |s| == 1 || IsBlank(s[1]) then 1 else 1 + WordLength(s[1..])
  }

  /** `batch.index(b"\n", offset)` */
  function LineEnd(batch: string, offset: nat): (r: Option<nat>)
    ensures r.Some? ==> offset <= r.value < |batch| && batch[r.value] == '\n'
    decreases |batch| - offset
  {
    if offset >= |batch| then None
    else if batch[offset] == '\n' then Some(offset)
    else LineEnd(batch, offset + 1)
  }

  /** The size that a header line announces. */
  function Announced(header: string): Option<nat> {
    var words := Words(header);
    if |words| < 3 then None else NumeralValue(words[2], Decimal)
  }

  /** A slice as Python takes it, cut off at the end of the text. */
  function Slice(s: string, from: nat, to: nat): string {
    var a := if from < |s| then from else |s|;
    var b := if to < |s| then to else |s|;
    if a <= b then s[a..b] else ""
  }

  /** The next body and where the one after it begins. */
  function Next(batch: string, offset: nat): Option<(string, nat)> {
    var end := LineEnd(batch, offset);
    if end.None? then None
    else
      var size := Announced(batch[offset..end.value]);
      if size.None? then None
      else Some((Slice(batch, end.value + 1, end.value + 1 + size.value), end.value + 1 + size.value + 1))
  }

  /** The files read for some paths: a body that is not text is skipped; a path read twice keeps
      the last body. */
  function Files(paths: seq<string>, bodies: seq<string>, decode: string -> Option<string>): map<string, string>
    requires |paths| == |bodies|
  {
    if paths == [] then map[]
    else
      var n := |paths| - 1;
      var before := Files(paths[..n], bodies[..n], decode);
      var text := decode(bodies[n]);
      if text.None? then before else before[paths[n] := text.value]
  }

  /** The first `count` bodies from `offset` on, and where reading stops. */
  function Bodies(batch: string, offset: nat, count: nat): (r: Option<(seq<string>, nat)>)
    ensures r.Some? ==> |r.value.0| == count
  {
    if count == 0 then Some(([], offset))
    else
      var before := Bodies(batch, offset, count - 1);
      if before.None? then None
      else
        var next := Next(batch, before.value.1);
        if next.None? then None else Some((before.value.0 + [next.value.0], next.value.1))
  }

  lemma {:induction false} BodiesFail(batch: string, offset: nat, few: nat, many: nat)
    requires few <= many && Bodies(batch, offset, few).None?
    ensures Bodies(batch, offset, many).None?
  {
    if few < many {
      BodiesFail(batch, offset, few, many - 1);
    }
  }

  method TreeFiles(paths: seq<string>, batch: string, decode: string -> Option<string>)
      returns (files: Option<map<string, string>>, offset: nat)
    ensures var read := Bodies(batch, 0, |paths|);
            && (files.Some? <==> read.Some?)
            && (read.Some? ==> files.value == Files(paths, read.value.0, decode) && offset == read.value.1)
  {
    hide Next;
    var found: map<string, string> := map[];
    offset := 0;
    for i := 0 to |paths|
      invariant var read := Bodies(batch, 0, i);
                read.Some? && found == Files(paths[..i], read.value.0, decode) && offset == read.value.1
    {
      ghost var read := Bodies(batch, 0, i).value.0;
      var next := Next(batch, offset);
      if next.None? {
        BodiesFail(batch, 0, i + 1, |paths|);
        return None, offset;
      }
      var body := next.value.0;
      offset := next.value.1;
      assert paths[..i + 1][..i] == paths[..i] && (read + [body])[..i] == read;
      var text := decode(body);
      if text.Some? {
        found := found[paths[i] := text.value];
      }
    }
    assert paths[..|paths|] == paths;
    return Some(found), offset;
  }

  // ----- what Git writes -----

  function Header(b: Blob): string {
    b.id + " " + b.kind + " " + Numeral(|b.body|, Decimal)
  }

  function Framed(b: Blob): string {
    Header(b) + "\n" + b.body + "\n"
  }

  function Render(blobs: seq<Blob>): string {
    if blobs == [] then "" else Render(blobs[..|blobs| - 1]) + Framed(blobs[|blobs| - 1])
  }

  predicate ValidBlob(b: Blob) {
    IsWord(b.id) && IsWord(b.kind)
  }

  lemma {:induction false} WordLengthIs(w: string, rest: string)
    requires IsWord(w) && (rest == "" || IsBlank(rest[0]))
    ensures !IsBlank((w + rest)[0]) && WordLength(w + rest) == |w|
  {
    if |w| > 1 {
      WordLengthIs(w[1..], rest);
      assert (w + rest)[1..] == w[1..] + rest;
    }
  }

  lemma WordsFirst(w: string, rest: string)
    requires IsWord(w) && (rest == "" || IsBlank(rest[0]))
    ensures Words(w + rest) == [w] + Words(rest)
  {
    WordLengthIs(w, rest);
    assert (w + rest)[..|w|] == w && (w + rest)[|w|..] == rest;
  }

  lemma WordsSkip(rest: string)
    ensures Words(" " + rest) == Words(rest)
  {
    assert (" " + rest)[1..] == rest;
  }

  lemma NumeralIsWord(n: nat)
    ensures IsWord(Numeral(n, Decimal)) && '\n' !in Numeral(n, Decimal)
  {
    NumeralDigits(n, Decimal);
    hide Numeral;
    forall i | 0 <= i < |Numeral(n, Decimal)|
      ensures !IsBlank(Numeral(n, Decimal)[i])
    {
      assert DigitValue(Numeral(n, Decimal)[i]).Some?;
    }
  }

  /** A header announces the size of the body. */
  lemma HeaderAnnounces(b: Blob)
    requires ValidBlob(b)
    ensures Announced(Header(b)) == Some(|b.body|)
  {
    var size := Numeral(|b.body|, Decimal);
    NumeralIsWord(|b.body|);
    NumeralRoundTrip(|b.body|, Decimal);
    hide Numeral, NumeralValue, Words, IsWord;
    assert Header(b) == b.id + (" " + (b.kind + (" " + size)));
    WordsFirst(b.id, " " + (b.kind + (" " + size)));
    WordsSkip(b.kind + (" " + size));
    WordsFirst(b.kind, " " + size);
    WordsSkip(size);
    assert size + "" == size;
    WordsFirst(size, "");
    NoWords();
  }

  lemma NoWords()
    ensures Words("") == []
  {
  }

  lemma HeaderIsOneLine(b: Blob)
    requires ValidBlob(b)
    ensures '\n' !in Header(b)
  {
    NumeralIsWord(|b.body|);
    hide Numeral;
  }

  lemma {:induction false} LineEndIs(batch: string, offset: nat, end: nat)
    requires offset <= end < |batch| && batch[end] == '\n'
    requires forall i :: offset <= i < end ==> batch[i] != '\n'
    ensures LineEnd(batch, offset) == Some(end)
    decreases end - offset
  {
    if offset < end {
      LineEndIs(batch, offset + 1, end);
    }
  }

  /** Reading one frame gives its body, whatever bytes that contains, and stops right behind it. */
  lemma ReadsFrame(before: string, b: Blob, after: string)
    requires ValidBlob(b)
    ensures Next(before + Framed(b) + after, |before|) == Some((b.body, |before| + |Framed(b)|))
  {
    var batch := before + Framed(b) + after;
    var header := Header(b);
    var end := |before| + |header|;
    HeaderIsOneLine(b);
    HeaderAnnounces(b);
    hide Header, Announced;
    assert batch[|before|..end] == header;
    assert batch[end] == '\n';
    assert forall i :: |before| <= i < end ==> batch[i] == header[i - |before|];
    LineEndIs(batch, |before|, end);
    assert batch[end + 1..end + 1 + |b.body|] == b.body;
  }

  function BodyOf(blobs: seq<Blob>): (bodies: seq<string>)
    ensures |bodies| == |blobs| && forall i :: 0 <= i < |blobs| ==> bodies[i] == blobs[i].body
  {
    seq(|blobs|, i requires 0 <= i < |blobs| => blobs[i].body)
  }

  lemma BodiesNext(batch: string, offset: nat, n: nat, bodies: seq<string>, at: nat)
    requires Bodies(batch, offset, n) == Some((bodies, at)) && Next(batch, at).Some?
    ensures Bodies(batch, offset, n + 1) == Some((bodies + [Next(batch, at).value.0], Next(batch, at).value.1))
  {
    hide Next;
  }

  lemma NothingRendered(blobs: seq<Blob>, after: string)
    requires blobs == []
    ensures Bodies(Render(blobs) + after, 0, 0) == Some((BodyOf(blobs), |Render(blobs)|))
  {
    assert BodyOf(blobs) == [];
  }

  lemma RenderLast(front: seq<Blob>, last: Blob)
    ensures Render(front + [last]) == Render(front) + Framed(last)
    ensures BodyOf(front + [last]) == BodyOf(front) + [last.body]
  {
    hide Framed;
    assert (front + [last])[..|front|] == front;
  }

  lemma {:induction false} ReadsFrames(blobs: seq<Blob>, after: string)
    requires forall i :: 0 <= i < |blobs| ==> ValidBlob(blobs[i])
    ensures Bodies(Render(blobs) + after, 0, |blobs|) == Some((BodyOf(blobs), |Render(blobs)|))
  {
    hide *;
    if blobs == [] {
      NothingRendered(blobs, after);
    } else {
      var n := |blobs| - 1;
      var front, last := blobs[..n], blobs[n];
      assert blobs == front + [last];
      RenderLast(front, last);
      ReadsFrames(front, Framed(last) + after);
      var batch := Render(blobs) + after;
      assert Render(front) + (Framed(last) + after) == batch;
      ReadsFrame(Render(front), last, after);
      BodiesNext(batch, 0, n, BodyOf(front), |Render(front)|);
    }
  }

  /** For any list of blobs the walk over the stream recovers every body and ends at its end. */
  lemma StreamRoundTrip(blobs: seq<Blob>)
    requires forall i :: 0 <= i < |blobs| ==> ValidBlob(blobs[i])
    ensures Bodies(Render(blobs), 0, |blobs|) == Some((BodyOf(blobs), |Render(blobs)|))
  {
    ReadsFrames(blobs, "");
    assert Render(blobs) + "" == Render(blobs);
  }

  /** With distinct paths a file is found under its own path exactly when its body is text. */
  lemma {:induction false} FileFound(paths: seq<string>, bodies: seq<string>, decode: string -> Option<string>, i: nat)
    requires |paths| == |bodies| && i < |paths| && forall i, j :: 0 <= i < j < |paths| ==> paths[i] != paths[j]
    ensures var files := Files(paths, bodies, decode);
            && (paths[i] in files <==> decode(bodies[i]).Some?)
            && (paths[i] in files ==> files[paths[i]] == decode(bodies[i]).value)
  {
    var n := |paths| - 1;
    if i < n {
      FileFound(paths[..n], bodies[..n], decode, i);
    } else {
      FilesOnly(paths[..n], bodies[..n], decode, paths[n]);
    }
  }

  lemma {:induction false} FilesOnly(paths: seq<string>, bodies: seq<string>, decode: string -> Option<string>, path: string)
    requires |paths| == |bodies| && path !in paths
    ensures path !in Files(paths, bodies, decode)
  {
    if paths != [] {
      var n := |paths| - 1;
      FilesOnly(paths[..n], bodies[..n], decode, path);
    }
  }
}
