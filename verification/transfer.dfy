/** The artifact download: at most two HTTP sessions into one file, resumed only on a strong entity
    tag (sections 8.8.3.2, 13.1.1, 14.2, 14.4 and 15.3.7 of RFC 9110). */
module Transfers {
  import opened Bytes
  import opened Sizes

  type Tag = string

  datatype ContentRange = ContentRange(first: int, last: int, complete: int)

  datatype Response = Response(status: int, etag: string, identity: bool, range: Option<ContentRange>,
                               length: Option<nat>, body: seq<Byte>)

  /** One session as the outside plays it: whether an address comes, a response arrives and the local
      file can be opened and cut. A smooth one has no timeout, network or disk error while copying. */
  datatype Play = Play(url: bool, opens: bool, response: Response, fileOpens: bool, smooth: bool)

  /** A request as sent, with the bytes the file held then. */
  datatype Request = Request(offset: nat, ifMatch: Option<Tag>, have: seq<Byte>)

  const MAX_ZIP := 128 * 1024 * 1024
  const MAX_BLOCK := 1024 * 1024

  /** A quoted, non-empty tag without quotes or line breaks inside; weak tags do not match. */
  predicate IsStrong(h: string) {
    |h| >= 3 && h[0] == '"' && h[|h| - 1] == '"'
    && forall i :: 1 <= i < |h| - 1 ==> h[i] != '"' && h[i] != '\r' && h[i] != '\n'
  }

  /** Two quotes around at least one character, and none of those a quote or a line break. */
  lemma StrongTagsAre(h: string)
    ensures IsStrong(h) <==>
            exists inner :: h == "\"" + inner + "\"" && inner != "" && '"' !in inner && '\r' !in inner && '\n' !in inner
  {
    if IsStrong(h) {
      var inner := h[1..|h| - 1];
      assert h == "\"" + inner + "\"";
      assert forall i :: 0 <= i < |inner| ==> inner[i] == h[i + 1];
    }
    forall inner | h == "\"" + inner + "\"" && inner != "" && '"' !in inner && '\r' !in inner && '\n' !in inner
      ensures IsStrong(h)
    {
      assert forall i :: 1 <= i < |h| - 1 ==> h[i] == inner[i - 1];
    }
  }

  function StrongTag(h: string): Option<Tag> {
    if IsStrong(h) then Some(h) else None
  }

  /** The checks a response must pass before any byte of it is written. */
  predicate Acceptable(r: Response, offset: nat, held: Option<Tag>, size: nat) {
    && r.identity
    && (r.status == 200 ||
        (r.status == 206 && r.range == Some(ContentRange(offset, size - 1, size)) &&
         (offset == 0 || (StrongTag(r.etag).Some? && StrongTag(r.etag) == held))))
    && r.length == Some(size - StartOf(r, offset))
  }

  /** Where an accepted response's bytes go: a full response restarts the file. */
  function StartOf(r: Response, offset: nat): nat {
    if r.status == 206 then offset else 0
  }

  /** What a strong tag promises: the body is part of the one representation it names. */
  ghost predicate Honest(r: Response, rep: map<Tag, seq<Byte>>) {
    IsStrong(r.etag) ==>
      && r.etag in rep
      && (r.status == 200 ==> r.body <= rep[r.etag])
      && (r.status == 206 && r.range.Some? ==>
            0 <= r.range.value.first <= |rep[r.etag]| && r.body <= rep[r.etag][r.range.value.first..])
  }

  /** A file that holds only bytes of the representation its tag names. */
  ghost predicate PrefixOf(file: seq<Byte>, held: Option<Tag>, rep: map<Tag, seq<Byte>>) {
    held.Some? ==> held.value in rep && file <= rep[held.value]
  }

  /** A range is asked for only under a tag whose representation starts with what the file has. */
  ghost predicate SafeRequest(q: Request, rep: map<Tag, seq<Byte>>) {
    && (q.offset == 0 ==> q.ifMatch.None?)
    && (q.offset > 0 ==> q.ifMatch.Some? && q.offset == |q.have| && PrefixOf(q.have, q.ifMatch, rep))
  }

  /** The response was accepted, so its tag is held, but the file could not be opened for it. */
  predicate TagWithoutFile(play: Play, offset: nat, held: Option<Tag>, size: nat) {
    play.url && play.opens && Acceptable(play.response, offset, held, size) && !play.fileOpens
  }

  datatype Ending = Full | ShortBody | Failed

  /** One read: at least a byte while there is one, and never more than asked for. */
  method ReadSome(limit: nat, left: nat) returns (n: nat)
    requires limit > 0
    ensures n <= limit && n <= left && (n == 0 ==> left == 0)
  {
    n := Min(limit, left);
    while n > 1
      invariant n <= limit && n <= left && (n == 0 ==> left == 0)
    {
      if * { break; }
      n := n - 1;
    }
  }

  /** A write that fails may leave any part of its block behind. */
  method WriteSome(n: nat) returns (written: nat)
    ensures written <= n
  {
    written := n;
    while written > 0 {
      if * { break; }
      written := written - 1;
    }
  }

  /** The read loop: blocks of any size up to the limit, each written before the next is read. */
  method CopyBody(prefix: seq<Byte>, body: seq<Byte>, size: nat, smooth: bool) returns (file: seq<Byte>, ok: bool)
    requires |prefix| <= size
    ensures |file| <= size
    ensures exists k :: 0 <= k <= |body| && file == prefix + body[..k]
    ensures ok ==> file == prefix + body
    ensures smooth && |prefix| + |body| <= size ==> ok
  {
    var sent: nat := 0;
    file := prefix;
    assert body[..0] == [];
    while true
      invariant 0 <= sent <= |body| && file == prefix + body[..sent] && |file| <= size
      decreases |body| - sent
    {
      if !smooth {
        if * { return file, false; }
      }
      var limit := Min(MAX_BLOCK, size - |file| + 1);
      var n := ReadSome(limit, |body| - sent);
      if n == 0 { break; }
      var block := body[sent..sent + n];
      assert body[..sent + n] == body[..sent] + block;
      if |file| + n > size { return file, false; }
      if !smooth {
        if * {
          var written := WriteSome(n);
          assert body[..sent + written] == body[..sent] + block[..written];
          return file + block[..written], false;
        }
      }
      file := file + block;
      sent := sent + n;
    }
    assert body[..|body|] == body;
    ok := true;
  }

  /** A response whose bytes may be written: unencoded, and either the whole content of the pinned size, or
      exactly the bytes that the file lacks, of the representation the file starts. */
  ghost predicate Proper(r: Response, file: seq<Byte>, held: Option<Tag>, size: nat) {
    var whole := r.status == 200 && r.length == Some(size);
    var restart := r.status == 206 && r.range == Some(ContentRange(0, size - 1, size)) && r.length == Some(size)
                   && (held.None? || file == []);
    var rest := r.status == 206 && r.range == Some(ContentRange(|file|, size - 1, size)) && held.Some?
                && r.length == Some(size - |file|) && r.etag == held.value && IsStrong(r.etag);
    r.identity && (whole || restart || rest)
  }

  /** One session: the request, the checks, the truncation and the copy. */
  method Session(file: seq<Byte>, held: Option<Tag>, size: nat, play: Play, ghost rep: map<Tag, seq<Byte>>)
    returns (after: seq<Byte>, tag: Option<Tag>, ending: Ending, sent: Option<Request>)
    requires |file| <= size && size > 0 && Honest(play.response, rep) && PrefixOf(file, held, rep)
    ensures |after| <= size
    ensures sent.Some? ==> SafeRequest(sent.value, rep) && sent.value.have == file
    ensures ending.Full? <==> |after| == size && ending != Failed
    ensures var offset := if held.Some? then |file| else 0;
            if TagWithoutFile(play, offset, held, size)
            then ending.Failed? && after == file && tag == StrongTag(play.response.etag)
            else PrefixOf(after, tag, rep)
    ensures var offset := if held.Some? then |file| else 0;
            play.smooth && play.url && play.opens && play.fileOpens && Acceptable(play.response, offset, held, size)
            && StartOf(play.response, offset) + |play.response.body| <= size
            ==> !ending.Failed? && after == file[..StartOf(play.response, offset)] + play.response.body
                && tag == StrongTag(play.response.etag)
    ensures var offset := if held.Some? then |file| else 0;
            !Acceptable(play.response, offset, held, size) ==> ending.Failed? && after == file && tag == held
    ensures after != file || tag != held ==> Proper(play.response, file, held, size)
  {
    after, tag, ending, sent := file, held, Failed, None;
    if !play.url { return; }
    var offset := if held.Some? then |file| else 0;
    sent := Some(Request(offset, if offset > 0 then held else None, file));
    if !play.opens { return; }
    var r := play.response;
    if !Acceptable(r, offset, held, size) { return; }
    var start := StartOf(r, offset);
    tag := StrongTag(r.etag);
    if !play.fileOpens { return; }
    var ok;
    after, ok := CopyBody(file[..start], r.body, size, play.smooth);
    PrefixGrows(file, held, start, r, after, rep);
    if ok { ending := if |after| == size then Full else ShortBody; }
  }

  lemma PrefixGrows(file: seq<Byte>, held: Option<Tag>, start: nat, r: Response, after: seq<Byte>,
                    rep: map<Tag, seq<Byte>>)
    requires Honest(r, rep) && PrefixOf(file, held, rep) && start <= |file|
    requires r.status == 200 ==> start == 0
    requires r.status == 206 ==> r.range.Some? && r.range.value.first == start
    requires r.status == 200 || r.status == 206
    requires start > 0 ==> StrongTag(r.etag).Some? && StrongTag(r.etag) == held
    requires exists k :: 0 <= k <= |r.body| && after == file[..start] + r.body[..k]
    ensures PrefixOf(after, StrongTag(r.etag), rep)
  {
    var k :| 0 <= k <= |r.body| && after == file[..start] + r.body[..k];
    if IsStrong(r.etag) {
      var whole := rep[r.etag];
      assert r.body[..k] <= whole[start..];
      assert whole == whole[..start] + whole[start..];
      assert file[..start] == whole[..start];
    }
  }

  datatype Outcome = Refused | ChecksumMismatch | NotVerified | Verified

  /** The whole pinned content, in one full response without any trouble. */
  predicate DeliversAll(play: Play, pinned: seq<Byte>) {
    var r := play.response;
    play.smooth && play.url && play.opens && play.fileOpens && r.identity && r.status == 200
      && r.length == Some(|pinned|) && r.body == pinned
  }

  /** A smooth session that delivers a short body in full. */
  predicate StopsShort(play: Play, size: nat) {
    && play.smooth && play.url && play.opens && play.fileOpens && Acceptable(play.response, 0, None, size)
    && |play.response.body| < size
  }

  /** A smooth session that resumes from `before`: the same strong tag, exactly the missing range, and
      in it the rest of the pinned bytes. */
  predicate ResumesRest(before: seq<Byte>, tag: Option<Tag>, play: Play, size: nat, pinned: seq<Byte>) {
    var start, r := |before|, play.response;
    && play.smooth && play.url && play.opens && play.fileOpens
    && tag.Some? && StrongTag(r.etag) == tag
    && r.identity && r.status == 206 && start <= size && r.length == Some(size - start)
    && r.range == Some(ContentRange(start, size - 1, size))
    && before + r.body == pinned && |pinned| == size
  }

  function OffsetOf(file: seq<Byte>, held: Option<Tag>): nat {
    if held.Some? then |file| else 0
  }

  lemma ResumeIsAccepted(before: seq<Byte>, tag: Option<Tag>, play: Play, size: nat, pinned: seq<Byte>)
    ensures ResumesRest(before, tag, play, size, pinned) ==>
              && Acceptable(play.response, OffsetOf(before, tag), tag, size)
              && StartOf(play.response, OffsetOf(before, tag)) == |before|
              && before[..|before|] + play.response.body == pinned && |pinned| == size
  {
    assert before[..|before|] == before;
  }

  /** At most two sessions, whatever the server and the network do. No two representations are ever
      mixed: a resume is requested only for bytes that start the tagged representation, and success
      means the pinned bytes. `before` and `tag` are the file and the tag the last session began with. */
  method Transfer(taken: bool, size: int, sha: Digest, plays: seq<Play>, ghost rep: map<Tag, seq<Byte>>)
    returns (outcome: Outcome, file: seq<Byte>, trace: seq<Request>, sessions: nat, held: Option<Tag>,
             ghost before: seq<Byte>, ghost tag: Option<Tag>)
    requires |plays| == 2 && forall play :: play in plays ==> Honest(play.response, rep)
    ensures outcome.Refused? <==> !(0 < size <= MAX_ZIP) || taken
    ensures sessions <= 2 && |trace| <= sessions
    ensures outcome.Refused? ==> trace == [] && file == []
    ensures !outcome.Refused? ==> |file| <= size
    ensures forall q :: q in trace ==> SafeRequest(q, rep)
    ensures outcome.Verified? ==> |file| == size && file == sha.preimage
    ensures outcome.ChecksumMismatch? ==> |file| == size && file != sha.preimage
    ensures PrefixOf(before, tag, rep)
    ensures if !outcome.Refused? && sessions == 2 && TagWithoutFile(plays[1], OffsetOf(before, tag), tag, size)
            then outcome.NotVerified? && file == before && held == StrongTag(plays[1].response.etag)
            else PrefixOf(file, held, rep)
    ensures !outcome.Refused? && StopsShort(plays[0], size) ==>
      sessions == 2 && before == plays[0].response.body && tag == StrongTag(plays[0].response.etag)
    ensures !outcome.Refused? && sessions == 2 && ResumesRest(before, tag, plays[1], size, sha.preimage) ==>
      outcome.Verified?
    ensures !outcome.Refused? && DeliversAll(plays[1], sha.preimage) && |sha.preimage| == size
            && !outcome.ChecksumMismatch?
            ==> outcome.Verified?
  {
    file, trace, sessions, held, before, tag := [], [], 0, None, [], None;
    if !(0 < size <= MAX_ZIP) || taken { return Refused, file, trace, sessions, held, before, tag; }
    for number := 0 to 2
      invariant sessions == number && |trace| <= number
      invariant |file| <= size
      invariant forall q :: q in trace ==> SafeRequest(q, rep)
      invariant number == 0 ==> file == [] && held.None?
      invariant number < 2 ==> PrefixOf(file, held, rep)
      invariant PrefixOf(before, tag, rep)
      invariant number == 2 ==>
        if TagWithoutFile(plays[1], OffsetOf(before, tag), tag, size)
        then file == before && held == StrongTag(plays[1].response.etag) else PrefixOf(file, held, rep)
      invariant StopsShort(plays[0], size) && number == 1 ==>
        file == plays[0].response.body && held == StrongTag(plays[0].response.etag)
      invariant StopsShort(plays[0], size) && number == 2 ==>
        before == plays[0].response.body && tag == StrongTag(plays[0].response.etag)
      invariant number == 2 ==> !ResumesRest(before, tag, plays[1], size, sha.preimage)
      invariant number == 2 ==> !(DeliversAll(plays[1], sha.preimage) && |sha.preimage| == size)
    {
      assert plays[number] in plays;
      before, tag := file, held;
      ResumeIsAccepted(before, tag, plays[number], size, sha.preimage);
      var ending, sent;
      file, held, ending, sent := Session(file, held, size, plays[number], rep);
      sessions := sessions + 1;
      if sent.Some? { trace := trace + [sent.value]; }
      if ending.Full? {
        if Sha256(file) != sha { return ChecksumMismatch, file, trace, sessions, held, before, tag; }
        return Verified, file, trace, sessions, held, before, tag;
      }
    }
    return NotVerified, file, trace, sessions, held, before, tag;
  }

  function Example(etag: string, body: seq<Byte>, fileOpens: bool): Play {
    Play(true, true, Response(200, etag, true, None, Some(2), body), fileOpens, true)
  }

  /** That one case occurs: a short first session leaves a byte of one representation, and the second
      one accepts another representation but cannot open the file. */
  method StaleTag() returns (file: seq<Byte>, held: Option<Tag>, ghost rep: map<Tag, seq<Byte>>)
    ensures held.Some? && held.value in rep && !PrefixOf(file, held, rep)
  {
    var first, second := ['"', 'a', '"'], ['"', 'b', '"'];
    rep := map[first := [0, 0], second := [1, 1]];
    assert first[1] != second[1];
    assert [0 as Byte] == [0, 0][..1] && [1 as Byte] == [1, 1][..1];
    var outcome, trace, sessions;
    ghost var before, tag;
    outcome, file, trace, sessions, held, before, tag :=
      Transfer(false, 2, Sha256([0, 0]), [Example(first, [0], true), Example(second, [1], false)], rep);
    assert file[0] == 0 && rep[second][0] == 1;
  }
}
