/** A download that carries on where its connection broke. */
module Resuming {
  import opened Common

  // ---- decimal numbers ----

  const INT64_MAX: int := 0x7fff_ffff_ffff_ffff

  predicate IsDigit(c: char) { '0' <= c <= '9' }

  predicate AllDigits(s: string) { forall i | 0 <= i < |s| :: IsDigit(s[i]) }

  function DigitsValue(s: string): (v: nat)
    requires AllDigits(s)
  {
    if s == [] then 0 else 10 * DigitsValue(s[..|s| - 1]) + (s[|s| - 1] as int - '0' as int)
  }

  /** Reads a decimal number of 64 bits, with or without a sign. */
  function ParseInt(s: string): Option<int> {
    var signed := s != "" && (s[0] == '+' || s[0] == '-');
    var digits := if signed then s[1..] else s;
    if digits == "" || !AllDigits(digits) then None
    else
      var v: int := DigitsValue(digits);
      if signed && s[0] == '-' then if v <= INT64_MAX + 1 then Some(-v) else None
      else if v <= INT64_MAX then Some(v) else None
  }

  function FormatInt(n: nat): (s: string)
    ensures s != "" && AllDigits(s)
  {
    var digit := ('0' as int + n % 10) as char;
    if n < 10 then [digit] else FormatInt(n / 10) + [digit]
  }

  lemma {:induction false} FormattedValue(n: nat)
    ensures DigitsValue(FormatInt(n)) == n
  {
    var s := FormatInt(n);
    if n < 10 {
      assert s[..0] == "";
    } else {
      FormattedValue(n / 10);
      assert s[..|s| - 1] == FormatInt(n / 10);
    }
  }

  // ---- the Content-Range of a partial answer ----

  /** What comes before the first sep, and after it. */
  function Cut(s: string, sep: char): (r: Option<(string, string)>)
    ensures r.None? <==> sep !in s
    ensures r.Some? ==> s == r.value.0 + [sep] + r.value.1 && sep !in r.value.0
  {
    if s == "" then None
    else if s[0] == sep then Some(("", s[1..]))
    else
      match Cut(s[1..], sep)
      case None => None
      case Some((before, after)) => Some(([s[0]] + before, after))
  }

  lemma {:induction false} CutAt(before: string, sep: char, after: string)
    requires sep !in before
    ensures Cut(before + [sep] + after, sep) == Some((before, after))
  {
    var s := before + [sep] + after;
    if before == "" {
      assert s[1..] == after;
    } else {
      CutAt(before[1..], sep, after);
      assert s[1..] == before[1..] + [sep] + after;
      assert [s[0]] + before[1..] == before;
    }
  }

  /** The start and the total of "bytes start-end/total". */
  function ParseContentRange(value: string): Option<(int, int)> {
    if !("bytes " <= value) then None
    else
      match Cut(value[6..], '/')
      case None => None
      case Some((span, size)) =>
        match Cut(span, '-')
        case None => None
        case Some((first, _)) =>
          match (ParseInt(first), ParseInt(size))
          case (Some(start), Some(total)) => Some((start, total))
          case _ => None
  }

  function ContentRange(start: nat, end: string, total: nat): string {
    "bytes " + (FormatInt(start) + "-" + end + "/" + FormatInt(total))
  }

  lemma ParsedBack(n: nat)
    requires n <= INT64_MAX
    ensures ParseInt(FormatInt(n)) == Some(n)
  {
    FormattedValue(n);
    assert IsDigit(FormatInt(n)[0]);
  }

  /** The header a source writes is read for what it says. */
  lemma RangeReadBack(start: nat, end: string, total: nat)
    requires start <= INT64_MAX && total <= INT64_MAX && '/' !in end
    ensures ParseContentRange(ContentRange(start, end, total)) == Some((start, total))
  {
    var value, span := ContentRange(start, end, total), FormatInt(start) + "-" + end;
    var first, size := FormatInt(start), FormatInt(total);
    forall i | 0 <= i < |first|
      ensures first[i] != '/' && first[i] != '-'
    {
      assert IsDigit(first[i]);
    }
    assert value[6..] == span + ['/'] + size;
    CutAt(span, '/', size);
    CutAt(first, '-', end);
    ParsedBack(start);
    ParsedBack(total);
  }

  /** The header's parts, with the two numbers in their places. */
  predicate WrittenWith(value: string, first: string, end: string, size: string, start: int, total: int) {
    && '-' !in first && '/' !in first + "-" + end && value == "bytes " + (first + "-" + end + "/" + size)
    && ParseInt(first) == Some(start) && ParseInt(size) == Some(total)
  }

  /** And only what is written like that is read at all. */
  lemma RangeIsWritten(value: string, start: int, total: int)
    ensures ParseContentRange(value) == Some((start, total))
            <==> exists first, end, size :: WrittenWith(value, first, end, size, start, total)
  {
    if ParseContentRange(value) == Some((start, total)) {
      var (span, size) := Cut(value[6..], '/').value;
      var (first, end) := Cut(span, '-').value;
      assert span == first + "-" + end && value[6..] == span + "/" + size;
      assert value == "bytes " + value[6..];
      assert WrittenWith(value, first, end, size, start, total);
    }
    forall first, end, size | WrittenWith(value, first, end, size, start, total)
      ensures ParseContentRange(value) == Some((start, total))
    {
      var span := first + "-" + end;
      assert value[6..] == span + "/" + size;
      CutAt(span, '/', size);
      CutAt(first, '-', end);
    }
  }

  // ---- the download ----

  /** An answer to a request for the rest of the file, and the file as the
      source then has it. */
  datatype Response = Response(status: int, etag: string, contentRange: string, file: seq<byte>)

  /** How a read ended: no error, the end, or another error. */
  datatype Ending = Going | AtEnd | Broke

  /** It carries on where reading stopped, in a file of the same length that is
      not tagged as another. */
  predicate IsRest(response: Response, etag: string, read: int, total: int) {
    && response.status == 206
    && (etag == "" || response.etag == "" || response.etag == etag)
    && ParseContentRange(response.contentRange) == Some((read, total))
  }

  /** What a source may not do: give one ETag to different files, or state a
      range that is not one of its file. It may well ignore If-Range. */
  predicate Honest(response: Response, tagged: string -> seq<byte>) {
    && (response.etag != "" ==> response.file == tagged(response.etag))
    && match ParseContentRange(response.contentRange)
       case Some((start, total)) => 0 <= start <= total == |response.file|
       case None => true
  }

  /** When both answers are tagged, the rest taken is that of the same file. */
  lemma TaggedIsSame(response: Response, file: seq<byte>, etag: string, tagged: string -> seq<byte>, read: nat)
    requires etag != "" && file == tagged(etag) && Honest(response, tagged) && response.etag != ""
    requires IsRest(response, etag, read, |file|)
    ensures response.file == file
  {
  }

  lemma SomeAnswer(tagged: string -> seq<byte>)
    ensures exists response :: Honest(response, tagged)
  {
    assert Honest(Response(404, "", "", []), tagged);
  }

  /** What is taken carries on where reading stopped. */
  lemma TakenIsThere(response: Response, file: seq<byte>, etag: string, tagged: string -> seq<byte>, read: nat, total: int)
    requires Honest(response, tagged) && IsRest(response, etag, read, total)
    ensures ParseContentRange(response.contentRange) == Some((read, total)) && read <= total == |response.file|
    ensures etag != "" && file == tagged(etag) && response.etag != "" ==> response.file == file
  {
  }

  /** When either is not, the rest of another file may be: one of the same
      length is taken, whatever byte comes next. */
  lemma UntaggedMayChange(file: seq<byte>, etag: string, tag: string, read: nat)
      returns (tagged: string -> seq<byte>, response: Response)
    requires read < |file| <= INT64_MAX && (etag == "" || tag == "")
    ensures response.etag == tag && (etag != "" ==> tagged(etag) == file) && Honest(response, tagged)
    ensures IsRest(response, etag, read, |file|) && response.file[read] != file[read]
  {
    var other := file[read := if file[read] == 0 then 1 else 0];
    tagged := t => if t == etag && etag != "" then file else other;
    response := Response(206, tag, ContentRange(read, "", |file|), other);
    RangeReadBack(read, "", |file|);
  }

  const MAX_RESUMES: nat := 3

  /** The network is whatever it likes to be: reads give as much as they like
      and end as they like, and requests for the rest get any honest answer,
      of a file that may have changed. A connection carries its file's bytes,
      from the start its answer states. */
  class ResumingBody {
    const file: seq<byte>
    const etag: string
    const total: int
    const tagged: string -> seq<byte>
    /** The file behind the open connection, and where in it the connection is. */
    var open: seq<byte>
    var at: int
    var read: nat
    var resumes: nat
    /** The connection broke after giving something; the next read starts by resuming. */
    var broken: bool
    /** The rest was taken from another file, or from one without an ETag. */
    ghost var mixed: bool
    ghost var untagged: bool

    /** What has been read is exactly the file's beginning, unless the file
        changed, which takes an answer without an ETag. */
    ghost predicate Valid()
      reads this
    {
      && (total == -1 || total == |file| == |open|) && at == read <= |open| && resumes <= MAX_RESUMES
      && (etag != "" ==> file == tagged(etag))
      && (!mixed ==> open == file) && (etag != "" && !untagged ==> !mixed)
    }

    /** status and length are the first answer's; with no length the total is
        not known. */
    constructor (file: seq<byte>, status: int, length: int, etag: string, tagged: string -> seq<byte>)
      requires status == 200 && length > 0 ==> length == |file|
      requires etag != "" ==> file == tagged(etag)
      ensures Valid() && read == 0 && resumes == 0 && !mixed && !untagged
      ensures this.file == file && this.etag == etag && total == if status == 200 && length > 0 then length else -1
    {
      this.file, this.etag, this.tagged, open := file, etag, tagged, file;
      total := if status == 200 && length > 0 then length else -1;
      at, read, resumes, broken, mixed, untagged := 0, 0, 0, false, false, false;
    }

    predicate Resumable(cancelled: bool)
      reads this
    {
      !cancelled && total > 0 && read < total && resumes < MAX_RESUMES
    }

    /** Decides that for a response. */
    method CheckRest(response: Response) returns (ok: bool)
      ensures ok <==> IsRest(response, etag, read, total)
    {
      if response.status != 206 {
        return false;
      }
      if etag != "" && response.etag != "" && response.etag != etag {
        return false;
      }
      var range := ParseContentRange(response.contentRange);
      ok := !(range.None? || range.value.0 != read || range.value.1 != total);
    }

    /** Asks for the rest. The connection then stands where the answer says it
        starts. */
    method Resume() returns (ok: bool)
      requires Valid()
      modifies this
      ensures Valid() && read == old(read) && broken == old(broken)
      ensures old(resumes) <= resumes && (ok ==> resumes == old(resumes) + 1)
      ensures old(mixed) ==> mixed
    {
      hide Honest, IsRest, ParseContentRange;
      var cancelled: bool := *;
      if !Resumable(cancelled) {
        return false;
      }
      resumes := resumes + 1;
      var answer := Ask();
      if answer.None? {
        return false;
      }
      var response := answer.value;
      ok := CheckRest(response);
      if ok {
        TakenIsThere(response, file, etag, tagged, read, total);
        open, at := response.file, ParseContentRange(response.contentRange).value.0;
        mixed, untagged := mixed || open != file, untagged || response.etag == "";
      }
    }

    /** Any honest answer, or none. */
    method Ask() returns (answer: Option<Response>)
      ensures answer.Some? ==> Honest(answer.value, tagged)
    {
      var answered: bool := *;
      if !answered {
        return None;
      }
      SomeAnswer(tagged);
      var response: Response :| Honest(response, tagged);
      answer := Some(response);
    }

    /** What the open connection gives, at most size bytes. */
    method Receive(size: nat) returns (data: seq<byte>, ending: Ending)
      requires Valid()
      modifies this`at
      ensures |data| <= size && at == old(at) + |data| <= |open| && data == open[old(at)..at]
    {
      var n: nat :| n <= size && at + n <= |open|;
      data := open[at..at + n];
      at := at + n;
      ending := *;
    }

    /** What comes next, resuming if the connection breaks: however it breaks,
        what is handed over is the next bytes of the file, unless it changed. */
    method Read(size: nat) returns (data: seq<byte>, ending: Ending)
      requires Valid()
      modifies this
      ensures Valid() && |data| <= size
      ensures read == old(read) + |data| && (!mixed ==> read <= |file| && data == file[old(read)..read])
      ensures old(resumes) <= resumes && (old(mixed) ==> mixed)
      decreases MAX_RESUMES - resumes
    {
      if broken {
        broken := false;
        var resumed := Resume();
        if !resumed {
          return [], Broke;
        }
      }
      data, ending := Receive(size);
      read := read + |data|;
      var cancelled: bool := *;
      if ending != Broke || !Resumable(cancelled) {
        return;
      }
      if data != [] {
        broken := true;
        return data, Going;
      }
      var resumed := Resume();
      if !resumed {
        return [], Broke;
      }
      data, ending := Read(size);
    }
  }

  /** A download through it, read in pieces of the sizes the writer asks for,
      up to one byte over the limit. One that passes the length check is the
      whole file, if every answer was tagged, or the file did not change. */
  method Fetch(source: ResumingBody, length: int, limit: nat, sizes: seq<nat>) returns (ok: bool, data: seq<byte>)
    requires source.Valid() && source.read == 0 && !source.mixed
    modifies source
    ensures source.Valid() && |data| == source.read && (!source.mixed ==> |data| <= |source.file| && data == source.file[..|data|])
    ensures ok ==> 0 < |data| <= limit && (length > 0 ==> |data| == length)
    ensures ok && length > 0 && length == source.total && (!source.mixed || (source.etag != "" && !source.untagged)) ==> data == source.file
  {
    data := [];
    var ending := Going;
    var i := 0;
    while i < |sizes| && ending.Going? && |data| < limit + 1
      invariant source.Valid() && |data| == source.read
      invariant !source.mixed ==> |data| <= |source.file| && data == source.file[..|data|]
    {
      var piece;
      piece, ending := source.Read(if sizes[i] < limit + 1 - |data| then sizes[i] else limit + 1 - |data|);
      data := data + piece;
      i := i + 1;
    }
    if ending.Going? && |data| == limit + 1 {
      ending := AtEnd;
    }
    ok := ending.AtEnd? && |data| <= limit && |data| != 0 && !(length > 0 && |data| != length);
  }
}
