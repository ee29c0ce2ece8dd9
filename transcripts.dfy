/** Assembling page texts into one string: str.join, the "--- Page i ---" transcript of
    the OCR path, and running a fallible per-page step over every page in order. */
module Transcripts {
  import opened Paths
  import opened Storage

  ghost predicate IsPrefix(a: string, b: string)
  {
    |a| <= |b| && b[..|a|] == a
  }

  /** sep.join(parts). */
  function JoinWith(sep: string, parts: seq<string>): (joined: string)
    decreases |parts|
  {
    if parts == [] then ""
    else if |parts| == 1 then parts[0]
    else JoinWith(sep, parts[..|parts| - 1]) + sep + parts[|parts| - 1]
  }

  /** Joining one more part appends the separator and that part. */
  lemma JoinWithAppend(sep: string, parts: seq<string>, part: string)
    requires parts != []
    ensures JoinWith(sep, parts + [part]) == JoinWith(sep, parts) + sep + part
  {
    assert (parts + [part])[..|parts|] == parts;
  }

  /** Joining the first k parts gives a prefix of joining them all. */
  lemma {:induction false} JoinWithPrefix(sep: string, parts: seq<string>, k: nat)
    requires 0 < k <= |parts|
    ensures IsPrefix(JoinWith(sep, parts[..k]), JoinWith(sep, parts))
  {
    if k < |parts| {
      var init := parts[..|parts| - 1];
      assert init[..k] == parts[..k];
      JoinWithPrefix(sep, init, k);
      assert JoinWith(sep, parts) == JoinWith(sep, init) + sep + parts[|parts| - 1];
    } else {
      assert parts[..k] == parts;
    }
  }

  /** What precedes part k in the joined string: the first k parts and one separator. */
  function JoinLead(sep: string, parts: seq<string>, k: nat): (lead: string)
    requires k <= |parts|
  {
    if k == 0 then "" else JoinWith(sep, parts[..k]) + sep
  }

  /** Part k of a join stands, whole, right after the join of the parts before it. */
  lemma PartAt(sep: string, parts: seq<string>, k: nat)
    requires k < |parts|
    ensures IsPrefix(JoinLead(sep, parts, k) + parts[k], JoinWith(sep, parts))
  {
    var upto := parts[..k + 1];
    if k > 0 {
      assert upto[..k] == parts[..k];
    }
    assert JoinWith(sep, upto) == JoinLead(sep, parts, k) + parts[k];
    JoinWithPrefix(sep, parts, k + 1);
  }

  /** "--- Page n ---\n", the marker that opens page n's block. */
  function PageMarker(n: nat): (marker: string)
  {
    "--- Page " + NatToString(n) + " ---\n"
  }

  /** The block img2text appends for page n: the marker, the recognised text, a newline. */
  function PageBlock(n: nat, text: string): (block: string)
  {
    PageMarker(n) + text + "\n"
  }

  /** The blocks of pages 1..|texts|, in order. */
  function PageBlocks(texts: seq<string>): (blocks: seq<string>)
  {
    seq(|texts|, i requires 0 <= i < |texts| => PageBlock(i + 1, texts[i]))
  }

  /** The transcript img2text writes: "\n".join of the page blocks. */
  function Transcript(texts: seq<string>): (transcript: string)
  {
    JoinWith("\n", PageBlocks(texts))
  }

  /** Markers are distinct: a marker names exactly one page number. */
  lemma PageMarkerInjective(i: nat, j: nat)
    requires PageMarker(i) == PageMarker(j)
    ensures i == j
  {
    var m, d1, d2 := "--- Page ", NatToString(i), NatToString(j);
    assert |d1| == |d2|;
    assert d1 == PageMarker(i)[|m|..|m| + |d1|];
    assert d2 == PageMarker(j)[|m|..|m| + |d2|];
    NatToStringInjective(i, j);
  }

  /** Recognising one more page extends the transcript by a newline and that page's
      block, numbered one past the pages before it. */
  lemma TranscriptAppendPage(texts: seq<string>, text: string)
    ensures Transcript(texts + [text])
            == (if texts == [] then "" else Transcript(texts) + "\n") + PageBlock(|texts| + 1, text)
  {
    var blocks := PageBlocks(texts + [text]);
    assert blocks == PageBlocks(texts) + [PageBlock(|texts| + 1, text)];
    if texts != [] {
      JoinWithAppend("\n", PageBlocks(texts), PageBlock(|texts| + 1, text));
    }
  }

  /** What precedes page k + 1's block in the transcript. */
  function TranscriptLead(texts: seq<string>, k: nat): (lead: string)
    requires k <= |texts|
  {
    if k == 0 then "" else Transcript(texts[..k]) + "\n"
  }

  /** Page k + 1's block, its marker first, sits in the transcript right after the
      transcript of pages 1..k; so the markers come in the order 1, 2, ..., K. */
  lemma TranscriptPageAt(texts: seq<string>, k: nat)
    requires k < |texts|
    ensures IsPrefix(TranscriptLead(texts, k) + PageMarker(k + 1) + texts[k] + "\n", Transcript(texts))
  {
    var blocks := PageBlocks(texts);
    PartAt("\n", blocks, k);
    if k > 0 {
      assert blocks[..k] == PageBlocks(texts[..k]);
    }
    assert JoinLead("\n", blocks, k) == TranscriptLead(texts, k);
    assert blocks[k] == PageMarker(k + 1) + texts[k] + "\n";
    assert TranscriptLead(texts, k) + PageMarker(k + 1) + texts[k] + "\n"
        == JoinLead("\n", blocks, k) + blocks[k];
  }

  /** Where the blocks start grows strictly from page to page, by the length of a block
      and its separator. */
  lemma TranscriptLeadGrows(texts: seq<string>, k: nat)
    requires k < |texts|
    ensures TranscriptLead(texts, k + 1) == TranscriptLead(texts, k) + PageBlock(k + 1, texts[k]) + "\n"
    ensures |TranscriptLead(texts, k)| < |TranscriptLead(texts, k + 1)|
  {
    assert texts[..k + 1] == texts[..k] + [texts[k]];
    TranscriptAppendPage(texts[..k], texts[k]);
  }

  /** `for x in xs: out.append(f(x))`, where f may raise: the first failure, in page order,
      ends the loop and is what the caller sees. */
  function MapAll<A>(f: A -> Result<string>, xs: seq<A>): (r: Result<seq<string>>)
    ensures r.Ok? ==> |r.value| == |xs| && forall i :: 0 <= i < |xs| ==> f(xs[i]) == Ok(r.value[i])
    decreases |xs|
  {
    if xs == [] then Ok([])
    else
      match MapAll(f, xs[..|xs| - 1])
      case Err(e) => Err(e)
      case Ok(done) =>
        match f(xs[|xs| - 1])
        case Err(e) => Err(e)
        case Ok(t) => Ok(done + [t])
  }

  /** What every step returned, when every step succeeded. */
  function AllTexts<A>(f: A -> Result<string>, xs: seq<A>): (texts: seq<string>)
    requires forall i :: 0 <= i < |xs| ==> f(xs[i]).Ok?
  {
    seq(|xs|, i requires 0 <= i < |xs| => f(xs[i]).value)
  }

  /** When every step succeeds, so does the whole, with every step's text in order. */
  lemma {:induction false} MapAllSucceeds<A>(f: A -> Result<string>, xs: seq<A>)
    requires forall i :: 0 <= i < |xs| ==> f(xs[i]).Ok?
    ensures MapAll(f, xs) == Ok(AllTexts(f, xs))
    decreases |xs|
  {
    if xs != [] {
      MapAllSucceeds(f, xs[..|xs| - 1]);
    }
    assert MapAll(f, xs).value == AllTexts(f, xs);
  }

  /** When step k fails and every step before it succeeded, the whole fails with step k's
      error. */
  lemma {:induction false} MapAllFirstFailure<A>(f: A -> Result<string>, xs: seq<A>, k: nat)
    requires k < |xs| && f(xs[k]).Err?
    requires forall i :: 0 <= i < k ==> f(xs[i]).Ok?
    ensures MapAll(f, xs) == Err(f(xs[k]).error)
    decreases |xs|
  {
    var init := xs[..|xs| - 1];
    if k == |xs| - 1 {
      MapAllSucceeds(f, init);
    } else {
      MapAllFirstFailure(f, init, k);
    }
  }

  /** A failure among the first k steps is the failure of the whole. */
  lemma {:induction false} MapAllFailurePersists<A>(f: A -> Result<string>, xs: seq<A>, k: nat)
    requires k <= |xs| && MapAll(f, xs[..k]).Err?
    ensures MapAll(f, xs) == MapAll(f, xs[..k])
    decreases |xs|
  {
    if k < |xs| {
      var init := xs[..|xs| - 1];
      assert init[..k] == xs[..k];
      MapAllFailurePersists(f, init, k);
    } else {
      assert xs[..k] == xs;
    }
  }
}
