/**
 * Cover download and `handle_track`: what a recognised track makes the
 * service do. Side effects are recorded as `Effect` values in the order they
 * happen; the HTTP requests, the temp-file write and the atomic rename are
 * outside this model, and the download's success is an input.
 */
module Publishing {
  import Metadata
  import opened Recognition

  /** The public URL under which the downloaded cover is served. */
  const CoverPublicUrl := "http://localhost:8000/cover.jpg"

  datatype Effect =
    | Publish(artist: string, title: string, coverUrl: string)  // update_icecast_metadata
    | ClearCover                                                 // clear_cover
    | Download(url: string)                                      // download_cover's fetch and replace
    | Capture                                                    // capture_audio
    | Sleep(seconds: nat)                                        // asyncio.sleep

  /** The query parameters a `Publish` effect sends. */
  function RequestOf(e: Effect): Metadata.Params
    requires e.Publish?
  {
    Metadata.UpdateParams(e.artist, e.title, e.coverUrl)
  }

  datatype Kind = PublishKind | ClearKind | DownloadKind | CaptureKind | SleepKind

  function KindOf(e: Effect): Kind {
    match e
    case Publish(_, _, _) => PublishKind
    case ClearCover => ClearKind
    case Download(_) => DownloadKind
    case Capture => CaptureKind
    case Sleep(_) => SleepKind
  }

  /** How many effects of kind `k` a trace holds. */
  function Count(effects: seq<Effect>, k: Kind): nat {
    if effects == [] then 0
    else (if KindOf(effects[0]) == k then 1 else 0) + Count(effects[1..], k)
  }

  lemma {:induction false} CountAppend(a: seq<Effect>, b: seq<Effect>, k: Kind)
    ensures Count(a + b, k) == Count(a, k) + Count(b, k)
  {
    if a == [] {
      assert a + b == b;
    } else {
      assert (a + b)[1..] == a[1..] + b;
      CountAppend(a[1..], b, k);
    }
  }

  lemma CountSingle(e: Effect, k: Kind)
    ensures Count([e], k) == if KindOf(e) == k then 1 else 0
  {
    assert [e][1..] == [];
  }

  datatype DownloadResult = DownloadResult(ok: bool, effects: seq<Effect>)

  /** `download_cover(url)`, where `fetched` says whether fetching and
      replacing the local file succeeded. An empty URL is refused at once,
      with nothing attempted. */
  function DownloadCover(url: string, fetched: bool): (d: DownloadResult)
    ensures url == "" ==> !d.ok && d.effects == []
    ensures url != "" ==> d.effects == [Download(url)] && (d.ok <==> fetched)
  {
    if url == "" then DownloadResult(false, [])
    else DownloadResult(fetched, [Download(url)])
  }

  /** `handle_track(track)`: download the cover when there is one, then
      publish artist and title, with the public cover URL only if the
      download succeeded. */
  function HandleTrack(t: Track, fetched: bool): (effects: seq<Effect>)
    ensures |effects| == if t.cover != "" then 2 else 1
    ensures t.cover != "" ==> effects[0] == Download(t.cover)
    ensures effects[|effects| - 1].Publish?
    ensures effects[|effects| - 1].artist == t.artist && effects[|effects| - 1].title == t.title
  {
    var d := if t.cover != "" then DownloadCover(t.cover, fetched) else DownloadResult(false, []);
    d.effects + [Publish(t.artist, t.title, if d.ok then CoverPublicUrl else "")]
  }

  /** Handling a track publishes exactly once, last, with the artist and
      title unchanged and the public cover URL exactly when the track has a
      cover and its download succeeded; a download is attempted exactly when
      the track has a cover, and only of that cover. */
  lemma HandleTrackPublishesOnce(t: Track, fetched: bool)
    ensures var effects := HandleTrack(t, fetched);
      && Count(effects, PublishKind) == 1
      && Count(effects, DownloadKind) == (if t.cover != "" then 1 else 0)
      && Count(effects, CaptureKind) == 0
      && (forall e :: e in effects && e.Download? ==> e.url == t.cover)
      && effects[|effects| - 1].Publish?
      && effects[|effects| - 1].artist == t.artist
      && effects[|effects| - 1].title == t.title
      && (effects[|effects| - 1].coverUrl == CoverPublicUrl <==> t.cover != "" && fetched)
      && (effects[|effects| - 1].coverUrl == "" <==> !(t.cover != "" && fetched))
  {
    var effects := HandleTrack(t, fetched);
    var d := if t.cover != "" then DownloadCover(t.cover, fetched) else DownloadResult(false, []);
    var last := effects[|effects| - 1];
    assert effects == d.effects + [last];
    forall k: Kind
      ensures Count(effects, k) == Count(d.effects, k) + (if KindOf(last) == k then 1 else 0)
    {
      CountAppend(d.effects, [last], k);
      CountSingle(last, k);
    }
    if t.cover != "" {
      CountSingle(Download(t.cover), PublishKind);
      CountSingle(Download(t.cover), DownloadKind);
      CountSingle(Download(t.cover), CaptureKind);
    }
  }
}
