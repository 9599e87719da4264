/**
 * The recognizer client (`recognize`): how a title/artist/album/cover record
 * is pulled out of the recognition provider's already-parsed response.
 * The provider call itself is outside this model; its outcome is a
 * `ShazamReply`.
 */
module Recognition {
  import opened Wrappers

  /** An entry of a section's `metadata` list: `title` is the label
      ("Album", "Label", "Released", ...), `text` the value. */
  datatype MetaEntry = MetaEntry(title: Option<string>, text: Option<string>)

  /** A section of the track; an absent `metadata` key is the empty list. */
  datatype Section = Section(metadata: seq<MetaEntry>)

  /** The track's `images` object; an absent key is None. */
  datatype Images = Images(coverarthq: Option<string>, coverart: Option<string>)

  /** A non-empty `track` object; an absent `sections` key is the empty list,
      an absent `images` key is Images(None, None). */
  datatype TrackObject = TrackObject(
    title: Option<string>,
    subtitle: Option<string>,
    sections: seq<Section>,
    images: Images)

  /** What the provider call produced: an error (any exception raised by the
      call or while reading the response), or a response whose `track` is
      None when it is absent, null or the empty object. */
  datatype ShazamReply = ProviderError | Answer(track: Option<TrackObject>)

  /** The record the source builds, compared by value. */
  datatype Track = Track(title: string, artist: string, album: string, cover: string)

  /** The empty result `{}`, or a track record. */
  datatype Recognized = NoMatch | Match(track: Track)

  const Unknown := "Unknown"

  /** ASCII lower-casing of one character. */
  function LowerChar(c: char): char {
    if 'A' <= c <= 'Z' then (c as int + 32) as char else c
  }

  function Lower(s: string): string {
    seq(|s|, i requires 0 <= i < |s| => LowerChar(s[i]))
  }

  /** `meta.get("title", "").lower() == "album"` */
  predicate IsAlbumLabel(e: MetaEntry) {
    Lower(e.title.GetOr("")) == "album"
  }

  /** The label test ignores case and nothing else: a label matches exactly
      when it spells "album" in any mix of upper and lower case. */
  lemma AlbumLabelIgnoresCase(name: string, text: Option<string>)
    ensures IsAlbumLabel(MetaEntry(Some(name), text)) <==>
            |name| == 5 && forall i :: 0 <= i < 5 ==> name[i] == "album"[i] || name[i] == "ALBUM"[i]
  {
    if |name| == 5 {
      var lower := Lower(name);
      assert lower == "album" <==> forall i :: 0 <= i < 5 ==> lower[i] == "album"[i];
      forall i | 0 <= i < 5
        ensures lower[i] == "album"[i] <==> name[i] == "album"[i] || name[i] == "ALBUM"[i]
      {
        assert lower[i] == LowerChar(name[i]);
      }
    }
  }

  /** The index of the first entry with an album label. */
  function FirstAlbumIndex(metadata: seq<MetaEntry>): (k: Option<nat>)
    ensures k.Some? ==> k.value < |metadata| && IsAlbumLabel(metadata[k.value])
    ensures k.Some? ==> forall j :: 0 <= j < k.value ==> !IsAlbumLabel(metadata[j])
    ensures k.None? ==> forall j :: 0 <= j < |metadata| ==> !IsAlbumLabel(metadata[j])
  {
    if metadata == [] then None
    else if IsAlbumLabel(metadata[0]) then Some(0)
    else match FirstAlbumIndex(metadata[1..])
      case Some(k) => Some(k + 1)
      case None => None
  }

  /** The album the scan ends with. The `break` leaves only the inner loop, so
      a later section that has an album entry overrides an earlier one:
      the result comes from the last section that has one. */
  function AlbumOf(sections: seq<Section>): (album: string)
    ensures album == Unknown ||
            exists i, j :: 0 <= i < |sections| && 0 <= j < |sections[i].metadata| &&
              IsAlbumLabel(sections[i].metadata[j]) && sections[i].metadata[j].text == Some(album)
  {
    if sections == [] then Unknown
    else
      var last := sections[|sections| - 1].metadata;
      match FirstAlbumIndex(last)
      case Some(k) => last[k].text.GetOr(Unknown)
      case None =>
        var init := sections[..|sections| - 1];
        assert forall i :: 0 <= i < |init| ==> init[i] == sections[i];
        AlbumOf(init)
  }

  predicate HasAlbum(s: Section) {
    FirstAlbumIndex(s.metadata).Some?
  }

  /** With no album entry in any section, the album is "Unknown". */
  lemma {:induction false} AlbumUnknownWithoutLabel(sections: seq<Section>)
    requires forall i :: 0 <= i < |sections| ==> !HasAlbum(sections[i])
    ensures AlbumOf(sections) == Unknown
  {
    if sections != [] {
      var init := sections[..|sections| - 1];
      assert forall i :: 0 <= i < |init| ==> init[i] == sections[i];
      AlbumUnknownWithoutLabel(init);
    }
  }

  /** Otherwise the album is the text of the first album entry of the last
      section holding one ("Unknown" if that entry has no text). */
  lemma {:induction false} AlbumFromLastLabelledSection(sections: seq<Section>, s: nat)
    requires s < |sections| && HasAlbum(sections[s])
    requires forall i :: s < i < |sections| ==> !HasAlbum(sections[i])
    ensures var m := sections[s].metadata;
            AlbumOf(sections) == m[FirstAlbumIndex(m).value].text.GetOr(Unknown)
  {
    if s < |sections| - 1 {
      var init := sections[..|sections| - 1];
      assert forall i :: 0 <= i < |init| ==> init[i] == sections[i];
      AlbumFromLastLabelledSection(init, s);
    }
  }

  /** The scan as the source runs it: sections in order, entries in order,
      leaving the inner loop at the first album entry of a section. */
  method ScanAlbum(sections: seq<Section>) returns (album: string)
    ensures album == AlbumOf(sections)
  {
    album := Unknown;
    var i := 0;
    while i < |sections|
      invariant 0 <= i <= |sections|
      invariant album == AlbumOf(sections[..i])
    {
      var metadata := sections[i].metadata;
      var j := 0;
      while j < |metadata|
        invariant 0 <= j <= |metadata|
        invariant forall m :: 0 <= m < j ==> !IsAlbumLabel(metadata[m])
        invariant album == AlbumOf(sections[..i])
      {
        if IsAlbumLabel(metadata[j]) {
          album := metadata[j].text.GetOr(Unknown);
          break;
        }
        j := j + 1;
      }
      assert sections[..i + 1][..i] == sections[..i];
      i := i + 1;
    }
    assert sections[..i] == sections;
  }

  /** `images.get("coverarthq") or images.get("coverart") or ""` */
  function CoverOf(images: Images): (cover: string)
    ensures images.coverarthq.Some? && images.coverarthq.value != "" ==> cover == images.coverarthq.value
    ensures (images.coverarthq.None? || images.coverarthq.value == "") ==>
              cover == images.coverart.GetOr("")
  {
    if images.coverarthq.Some? && images.coverarthq.value != "" then images.coverarthq.value
    else if images.coverart.Some? && images.coverart.value != "" then images.coverart.value
    else ""
  }

  /** The record extracted from a reply. */
  function Extract(reply: ShazamReply): (r: Recognized)
    ensures r.Match? <==> reply.Answer? && reply.track.Some?
    ensures r.Match? ==> var t := reply.track.value;
      && (t.title.Some? ==> r.track.title == t.title.value)
      && (t.title.None? ==> r.track.title == Unknown)
      && (t.subtitle.Some? ==> r.track.artist == t.subtitle.value)
      && (t.subtitle.None? ==> r.track.artist == Unknown)
      && r.track.album == AlbumOf(t.sections)
      && r.track.cover == CoverOf(t.images)
  {
    match reply
    case ProviderError => NoMatch
    case Answer(None) => NoMatch
    case Answer(Some(t)) =>
      Match(Track(t.title.GetOr(Unknown), t.subtitle.GetOr(Unknown), AlbumOf(t.sections), CoverOf(t.images)))
  }

  /** The cover is the high-quality URL when non-empty, else the standard one
      when non-empty, else empty; so it is empty exactly when both are. */
  lemma CoverFallback(images: Images)
    ensures CoverOf(images) != "" <==>
            (images.coverarthq.Some? && images.coverarthq.value != "") ||
            (images.coverart.Some? && images.coverart.value != "")
    ensures CoverOf(images) != "" ==>
            Some(CoverOf(images)) == images.coverarthq || Some(CoverOf(images)) == images.coverart
  {
  }

  /** `recognize` after the provider call: the album scan is run as a loop. */
  method Recognize(reply: ShazamReply) returns (r: Recognized)
    ensures r == Extract(reply)
  {
    if reply.ProviderError? || reply.track.None? {
      return NoMatch;
    }
    var t := reply.track.value;
    var album := ScanAlbum(t.sections);
    var cover := CoverOf(t.images);
    r := Match(Track(t.title.GetOr(Unknown), t.subtitle.GetOr(Unknown), album, cover));
  }
}
