/** What a client finds in the bytes of the two answers that carry a stored value
    (source/srv_db.cpp:408-411, 776; source/request_handler.cpp:229-236). */
module Delivery {
  import opened Text
  import opened Tables
  import opened Requests
  import opened ServerDb
  import Handler
  import Integrity
  import Pictures
  import Replies

  /** These bytes are a framed reply that carries this answer. */
  predicate Delivers(bytes: string, r: Replies.Reply, answer: Answer, text: Answer -> string) {
    Replies.Framed(r) && r.content == Handler.ContentOf(answer, text) && bytes == Replies.Render(r)
  }

  lemma DeliveredContent(bytes: string, r: Replies.Reply, answer: Answer, text: Answer -> string)
    requires Delivers(bytes, r, answer, text)
    ensures Replies.ParseReply(bytes) ==
            Some((Replies.StatusLine(r.status), r.headers, Handler.ContentOf(answer, text)))
  {
    Replies.FramedIsPlain(r);
    Replies.ReplyReadsBack(r);
    hide Replies.Render, Replies.ParseReply, Replies.StatusLine, Handler.ContentOf;
  }

  /** The number behind the key's opening. */
  function KeyIn(content: string): Option<int> {
    if KEY_OPENS <= content then Stoi(content[|KEY_OPENS|..]) else None
  }

  lemma KeyReadsBack(id: int)
    requires INT_MIN <= id <= INT_MAX
    ensures KeyIn(KeyContent(id)) == Some(id)
  {
    StoiReadsInt(id, CLOSES);
    hide Stoi, IntToString;
    assert KeyContent(id) == KEY_OPENS + (IntToString(id) + CLOSES);
  }

  /** What stands before the next double quote. */
  function UpToQuote(s: string): string {
    if s == "" || s[0] == '\"' then "" else [s[0]] + UpToQuote(s[1..])
  }

  /** The text behind the image's opening. */
  function ImageIn(content: string): Option<string> {
    if IMAGE_OPENS <= content then Some(UpToQuote(content[|IMAGE_OPENS|..])) else None
  }

  lemma {:induction false} UpToQuoteStops(image: string, rest: string)
    requires rest != "" && rest[0] == '\"'
    ensures UpToQuote(image + rest) == image <==> '\"' !in image
    decreases |image|
  {
    if image == "" {
      assert image + rest == rest;
    } else {
      UpToQuoteStops(image[1..], rest);
      assert (image + rest)[1..] == image[1..] + rest;
      assert image == [image[0]] + image[1..];
    }
  }

  /** The wrapper is transparent exactly for texts without a double quote, as base64 texts are. */
  lemma ImageReadsBackIff(image: string)
    ensures ImageIn(ImageContent(image)) == Some(image) <==> '\"' !in image
  {
    UpToQuoteStops(image, CLOSES);
    hide UpToQuote;
    assert ImageContent(image) == IMAGE_OPENS + (image + CLOSES);
  }

  /** The key a client reads out of a createContest reply is the number of the row its request
      inserted, with its own title and end time, and no other request inserted that row. */
  lemma DeliveredKeyIsOwn(schema: Schema, es: seq<Event>, t: nat, u: nat, bytes: string, r: Replies.Reply,
                          text: Answer -> string)
    requires var s := Run(schema, es);
      && |s.T.contests| <= INT_MAX
      && t in s.threads && s.threads[t].pc.Done? && s.threads[t].pc.answer.ContestKey?
      && Delivers(bytes, r, s.threads[t].pc.answer, text)
    ensures var s := Run(schema, es);
      && Replies.ParseReply(bytes).Some?
      && var key := KeyIn(Replies.ParseReply(bytes).value.2);
         && key.Some? && s.T.IsContest(key.value)
         && s.threads[t].made == [key.value]
         && s.T.ContestRow(key.value).title == s.threads[t].req.p1
         && s.T.ContestRow(key.value).endtime == Endtime(s.threads[t].req)
         && Integrity.AskedFor(s.T, s.threads[t].req, s.T.ContestRow(key.value).permissions)
         && (u in s.threads && u != t && s.threads[u].kind.CreateContest? ==> key.value !in s.threads[u].made)
  {
    var answer := Run(schema, es).threads[t].pc.answer;
    DeliveredContent(bytes, r, answer, text);
    Pictures.ReportedKeyIsOwn(schema, es, t, u);
    hide Run, Delivers, KeyIn, KeyContent, Replies.ParseReply, Replies.StatusLine, Endtime;
    KeyReadsBack(answer.id);
  }

  /** The bytes a getImage request is sent carry the stored text in its wrapper, under the conditions
      of Pictures.ImageReadsBack, and a client finds it there exactly when it holds no double quote. */
  lemma DeliveredImageIsStored(s: Sys, t: nat, fs: seq<Event>, p: nat, gs: seq<Event>, junk: Sight,
                             bytes: string, r: Replies.Reply, text: Answer -> string)
    requires Integrity.Good(s) && s.Active(t) && s.threads[t].pc.SlotUpdate? && s.T.IsContest(s.threads[t].contest)
    requires Pictures.NeverSet(Step(s, Send(t, true, junk)), fs, s.threads[t].contest, s.threads[t].slot)
    requires var s2 := Pictures.WriteThen(s, t, junk, fs);
      && s2.Active(p) && s2.threads[p].pc.PictureId?
      && s2.threads[p].contest == s.threads[t].contest && s2.threads[p].slot == s.threads[t].slot
    requires forall e <- gs :: e.t != p
    requires var s' := Step(Pictures.WriteThen(Pictures.WriteThen(s, t, junk, fs), p, junk, gs), Send(p, true, junk));
      p in s'.threads && s'.threads[p].pc.Done? && Delivers(bytes, r, s'.threads[p].pc.answer, text)
    ensures Replies.ParseReply(bytes).Some?
    ensures var content := Replies.ParseReply(bytes).value.2;
      && content == ImageContent(s.threads[t].req.p2)
      && (ImageIn(content) == Some(s.threads[t].req.p2) <==> '\"' !in s.threads[t].req.p2)
  {
    hide Step, Pictures.WriteThen, Pictures.NeverSet, Integrity.Good, Delivers, ImageIn,
      ImageContent, Replies.ParseReply;
    Pictures.ImageReadsBack(s, t, fs, p, gs, junk);
    DeliveredImage(bytes, r, s.threads[t].req.p2, text);
  }

  lemma DeliveredImage(bytes: string, r: Replies.Reply, image: string, text: Answer -> string)
    requires Delivers(bytes, r, Picture(image), text)
    ensures Replies.ParseReply(bytes).Some?
    ensures var content := Replies.ParseReply(bytes).value.2;
      content == ImageContent(image) && (ImageIn(content) == Some(image) <==> '\"' !in image)
  {
    hide Delivers, ImageIn, ImageContent, Replies.ParseReply, Replies.StatusLine;
    DeliveredContent(bytes, r, Picture(image), text);
    ImageReadsBackIff(image);
  }

  // ---------- result codes ----------

  const CODE_OPENS := "{\"RESULT\": \""

  function CodeIn(content: string): Option<int> {
    if CODE_OPENS <= content then Stoi(content[|CODE_OPENS|..]) else None
  }

  /** A result code reads back as itself, and anything that is none as 999. */
  lemma CodeReadsBack(code: int)
    ensures CodeIn(Replies.JsonContent(code)) == Some(if 1000 <= code <= 1013 then code else 999)
  {
    var n := if 1000 <= code <= 1013 then code else 999;
    StoiReadsInt(n, CLOSES);
    hide Stoi, Decimal;
    assert Replies.JsonContent(code) == CODE_OPENS + (Decimal(n) + CLOSES);
  }

  /** The code a client reads out of a reply's bytes is the one the request was answered with. */
  lemma DeliveredCode(bytes: string, r: Replies.Reply, code: int, text: Answer -> string)
    requires Delivers(bytes, r, Code(code), text)
    ensures Replies.ParseReply(bytes).Some?
    ensures CodeIn(Replies.ParseReply(bytes).value.2) == Some(if 1000 <= code <= 1013 then code else 999)
  {
    hide Delivers, CodeIn, Replies.JsonContent, Replies.ParseReply, Replies.StatusLine;
    DeliveredContent(bytes, r, Code(code), text);
    CodeReadsBack(code);
  }
}
