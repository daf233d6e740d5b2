/**
  One upload (`knovas_uploader.py`, `upload_file`): what is not sent at all, the init
  that is posted again without refused fields, and the parts.

  Extraction and the Secure API are parameters: the first as its result, the second as
  the answers it would give.
 */
module Uploader {
  import opened Prelude
  import opened Strings
  import opened SyncState
  import opened Recording

  /** What an upload brings to the index; each part is its snippet with its numbers. */
  datatype Carried = Carried(parts: seq<string>, title: string, description: string, fields: Option<FieldValues>)

  /** The init's `fields`; `empty` is the `{}` that clears earlier values. */
  datatype FieldValues = FieldValues(empty: bool, digest: string)

  datatype Extraction = Extracted(carried: Carried, partial: Option<Note>) | ExtractError(error: string)

  /** An answer to an init: `refusal` is the code when the status and body refuse the fields. */
  datatype InitReply = InitReply(status: nat, refusal: Option<string>, key: string, echo: bool)

  /** The answers in store: to the init, to a second init, and to each part. */
  datatype Server = Server(init: InitReply, again: InitReply, part: nat -> nat)

  predicate Accepted(reply: InitReply) { reply.status == 200 || reply.status == 201 }

  /** `ocr_pages_missing`: no note is a complete text, a note without counts says nothing. */
  function PagesMissing(note: Option<Note>): Option<nat> {
    match note
    case None => Some(0)
    case Some(n) =>
      if n.skipped.None? && n.failed.None? then None
      else Some((if n.skipped.Some? then n.skipped.value else 0) + (if n.failed.Some? then n.failed.value else 0))
  }

  /** `partial_note_for`: the library's counts, and whether it named no OCR backend where one was expected. */
  function PartialNoteFor(skipped: Option<nat>, failed: Option<nat>, backendNone: bool, expectOcr: bool): (note: Option<Note>)
    ensures note.None? ==> skipped in {None, Some(0)} && failed in {None, Some(0)}
    ensures skipped.Some? ==> PagesMissing(note).Some?
    ensures skipped.Some? && note.Some? ==> PagesMissing(note).value > 0
    ensures skipped.Some? ==> PagesMissing(note).value == skipped.value + if failed.Some? then failed.value else 0
  {
    if (skipped.Some? && skipped.value > 0) || (failed.Some? && failed.value > 0) || (expectOcr && backendNone && skipped.None?) then
      Some(Note(skipped, failed, "", 0))
    else None
  }

  datatype Decision = Keep | SameText | Send

  /** Whether a re-extraction is sent, given the pages missing at Knovas and the hash of what it holds. */
  function Decide(carried: Carried, partial: Option<Note>, heldMissing: Option<nat>, heldSha: Option<string>,
                  hash: Carried -> string): (d: Decision)
    ensures d == Keep <==> PagesMissing(partial).Some? && heldMissing.Some? && PagesMissing(partial).value > heldMissing.value
  {
    var missing := PagesMissing(partial);
    if heldMissing.Some? && missing.Some? && missing.value > heldMissing.value then Keep
    else if heldSha == Some(hash(carried)) then SameText
    else Send
  }

  /** `outcome_after_init` */
  function AfterInit(fields: Option<FieldValues>, echo: bool): FieldsResult {
    if fields.None? then NothingSent
    else if !echo then NotAccepted
    else if fields.value.empty then Cleared
    else Staged
  }

  method SendParts(parts: seq<string>, server: Server) returns (transmitted: seq<string>, failedAt: Option<nat>)
    ensures failedAt.None? ==> transmitted == parts && forall i :: 0 <= i < |parts| ==> server.part(i) == 200
    ensures failedAt.Some? ==>
      && failedAt.value < |parts| && server.part(failedAt.value) != 200 && transmitted == parts[..failedAt.value]
      && forall i :: 0 <= i < failedAt.value ==> server.part(i) == 200
  {
    transmitted, failedAt := [], None;
    for i := 0 to |parts|
      invariant transmitted == parts[..i] && forall k :: 0 <= k < i ==> server.part(k) == 200
    {
      if server.part(i) != 200 {
        return transmitted, Some(i);
      }
      transmitted := transmitted + [parts[i]];
    }
  }

  // ----- the error texts of the API are never held against the file ---------------

  lemma LowerAppend(a: string, b: string)
    ensures Lower(a + b) == Lower(a) + Lower(b)
  {
  }

  lemma {:induction false} ContainsLater(a: string, part: string, b: string)
    ensures Contains(a + part + b, part)
  {
    if a == "" {
      assert a + part + b == part + b;
    } else {
      ContainsLater(a[1..], part, b);
      assert (a + part + b)[1..] == a[1..] + part + b;
    }
  }

  lemma InitErrorKind(rest: string)
    ensures KindOf("init failed: " + rest) == NotTheFile
  {
    LowerAppend("init failed: ", rest);
    var text := "init failed: ";
    assert Lower(text)[..12] == "init failed:";
    assert Lower(text + rest)[..12] == "init failed:";
  }

  lemma PartErrorKind(index: string, status: string)
    ensures KindOf("part " + index + " failed: " + status) == NotTheFile
  {
    var error := "part " + index + " failed: " + status;
    LowerAppend("part " + index + " failed: ", status);
    LowerAppend("part " + index, " failed: ");
    LowerAppend("part ", index);
    assert Lower("part ") == "part " && Lower(" failed: ") == " failed:" + " ";
    assert Lower(error) == "part " + (Lower(index) + " failed: " + Lower(status));
    assert StartsWith(Lower(error), "part ");
    ContainsLater("part " + Lower(index), " failed:", " " + Lower(status));
    assert Lower(error) == "part " + Lower(index) + " failed:" + (" " + Lower(status));
  }

  /** The fields were refused, not the document: it is posted once more without them. */
  predicate Reposts(carried: Carried, server: Server) {
    !Accepted(server.init) && carried.fields.Some? && server.init.refusal.Some?
  }

  /** The answer the upload goes on with. */
  function LastReply(carried: Carried, server: Server): InitReply {
    if Reposts(carried, server) then server.again else server.init
  }

  /** The whole upload reaches Knovas: an init is accepted with a key, then every part. */
  predicate Delivered(carried: Carried, server: Server) {
    && Accepted(LastReply(carried, server)) && LastReply(carried, server).key != ""
    && forall i :: 0 <= i < |carried.parts| ==> server.part(i) == 200
  }

  /** What a delivered upload says of its fields; nothing while fields are off. */
  function FieldsAnswer(carried: Carried, fieldsOn: bool, server: Server): Option<FieldsResult> {
    if Reposts(carried, server) then Some(Refused(server.init.refusal.value))
    else if fieldsOn then Some(AfterInit(carried.fields, server.init.echo))
    else None
  }

  /** What an upload that was not kept back comes to; `error` is its error text when it fails. */
  function SendResult(carried: Carried, partial: Option<Note>, fieldsOn: bool, server: Server, stamp: string,
                      sha: string, error: string): Upload
  {
    if Delivered(carried, server) then
      Sent(LastReply(carried, server).key, partial, FieldsAnswer(carried, fieldsOn, server), Some(stamp), Some(sha))
    else Failed(error)
  }

  /**
    `upload_file`. `inits` are the `fields` of the inits that were posted and `transmitted` the parts that
    were accepted; `requests` is what is billed.
   */
  method UploadFile(extraction: Extraction, heldMissing: Option<nat>, heldSha: Option<string>, fieldsOn: bool,
                    server: Server, stamp: string, hash: Carried -> string)
    returns (upload: Upload, inits: seq<Option<FieldValues>>, transmitted: seq<string>, requests: nat)
    requires extraction.Extracted? && !fieldsOn ==> extraction.carried.fields.None?
    ensures extraction.ExtractError? ==> upload == Failed(extraction.error) && inits == [] && transmitted == [] && requests == 0
    ensures extraction.Extracted? ==>
      var decision := Decide(extraction.carried, extraction.partial, heldMissing, heldSha, hash);
      && (decision == Keep <==> upload.KeptText?) && (decision == SameText <==> upload.UnchangedText?)
      && (decision == Keep ==> upload.stamp == Some(stamp))
      && (decision == SameText ==> upload == UnchangedText(extraction.partial, Some(stamp)))
      && (decision == Send ==> |inits| > 0 && inits[0] == extraction.carried.fields)
      && (decision != Send ==> inits == [] && transmitted == [] && requests == 0)
      && (|inits| <= 2) && (|inits| == 2 <==> decision == Send && Reposts(extraction.carried, server))
      && (|inits| == 2 ==> inits[1] == None)
    ensures extraction.Extracted? && Decide(extraction.carried, extraction.partial, heldMissing, heldSha, hash) == Send ==>
      upload == SendResult(extraction.carried, extraction.partial, fieldsOn, server, stamp, hash(extraction.carried),
                           if upload.Failed? then upload.error else "")
    ensures extraction.Extracted? && Decide(extraction.carried, extraction.partial, heldMissing, heldSha, hash) == Send ==>
      var refused := server.init.status !in {200, 201} && extraction.carried.fields.Some? && server.init.refusal.Some?;
      var reply := if refused then server.again else server.init;
      (upload.Sent? <==> reply.status in {200, 201} && reply.key != ""
                         && forall i :: 0 <= i < |extraction.carried.parts| ==> server.part(i) == 200)
    ensures upload.Sent? ==> transmitted == extraction.carried.parts && requests == |inits| + |transmitted|
    ensures upload.Failed? && extraction.Extracted? ==> KindOf(upload.error) == NotTheFile
  {
    inits, transmitted, requests := [], [], 0;
    if extraction.ExtractError? {
      return Failed(extraction.error), inits, transmitted, requests;
    }
    var carried := extraction.carried;
    var missing := PagesMissing(extraction.partial);
    if heldMissing.Some? && missing.Some? && missing.value > heldMissing.value {
      return KeptText(Some(stamp)), inits, transmitted, requests;
    }
    var sha := hash(carried);
    if heldSha == Some(sha) {
      return UnchangedText(extraction.partial, Some(stamp)), inits, transmitted, requests;
    }
    var reply, fields := server.init, None;
    inits, requests := [carried.fields], 1;
    if !Accepted(reply) && carried.fields.Some? && reply.refusal.Some? {
      var code := reply.refusal.value;
      reply := server.again;
      inits, requests := inits + [None], 2;
      fields := Some(Refused(code));
    }
    if !Accepted(reply) {
      InitErrorKind(Decimal(reply.status));
      return Failed("init failed: " + Decimal(reply.status)), inits, transmitted, requests;
    }
    if fieldsOn && fields.None? {
      fields := Some(AfterInit(carried.fields, reply.echo));
    }
    if reply.key == "" {
      InitErrorKind("missing transmission key");
      return Failed("init failed: " + "missing transmission key"), inits, transmitted, requests;
    }
    var failedAt;
    transmitted, failedAt := SendParts(carried.parts, server);
    if failedAt.Some? {
      requests := requests + |transmitted| + 1;
      var at := failedAt.value;
      PartErrorKind(Decimal(at), Decimal(server.part(at)));
      return Failed("part " + Decimal(at) + " failed: " + Decimal(server.part(at))), inits, transmitted, requests;
    }
    requests := requests + |transmitted|;
    return Sent(reply.key, extraction.partial, fields, Some(stamp), Some(sha)), inits, transmitted, requests;
  }
}
