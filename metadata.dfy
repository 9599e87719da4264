/**
 * The metadata publisher (`update_icecast_metadata`): the `song` string and
 * the query parameters of the Icecast-KH `admin/metadata` request.
 * Percent-encoding, the basic-auth header and the HTTP exchange are outside
 * this model; the parameters are kept as an ordered key/value list, in the
 * insertion order of the dictionary the source builds.
 */
module Metadata {
  import opened Wrappers

  /** The configured mount point. */
  const Mount := "/stream.mp3"

  /** The `mode` value that asks Icecast-KH to update the stream info. */
  const UpdateMode := "updinfo"

  /** The displayed song: "artist - title", or the artist alone when the title
      is empty (an empty artist is not treated specially). */
  function Song(artist: string, title: string): (song: string)
    ensures |song| >= |artist| && song[..|artist|] == artist
    ensures title == "" <==> song == artist
    ensures title != "" ==> song[|artist|..] == " - " + title
  {
    if title != "" then artist + " - " + title else artist
  }

  /** For a fixed artist, the song string determines the title. */
  lemma SongDeterminesTitle(artist: string, t1: string, t2: string)
    requires Song(artist, t1) == Song(artist, t2)
    ensures t1 == t2
  {
    if t1 != "" && t2 != "" {
      assert t1 == (" - " + t1)[3..];
      assert t2 == (" - " + t2)[3..];
    }
  }

  type Params = seq<(string, string)>

  /** The request's query parameters. */
  function UpdateParams(artist: string, title: string, coverUrl: string): (p: Params)
    ensures Keys(p) == ["mount", "mode", "song"] + (if coverUrl != "" then ["url"] else [])
    ensures forall i :: 0 <= i < |p| && p[i].0 == "url" ==> p[i].1 == coverUrl != ""
  {
    [("mount", Mount), ("mode", UpdateMode), ("song", Song(artist, title))]
    + (if coverUrl != "" then [("url", coverUrl)] else [])
  }

  function Keys(params: Params): seq<string> {
    seq(|params|, i requires 0 <= i < |params| => params[i].0)
  }

  /** The value of the first parameter named `key`. */
  function Lookup(params: Params, key: string): Option<string> {
    if params == [] then None
    else if params[0].0 == key then Some(params[0].1)
    else Lookup(params[1..], key)
  }

  /** The request always names the mount and the update mode and carries the
      song; it carries a `url` exactly when a cover URL is given. */
  lemma UpdateParamsContent(artist: string, title: string, coverUrl: string)
    ensures Keys(UpdateParams(artist, title, coverUrl)) ==
            ["mount", "mode", "song"] + (if coverUrl != "" then ["url"] else [])
    ensures Lookup(UpdateParams(artist, title, coverUrl), "mount") == Some(Mount)
    ensures Lookup(UpdateParams(artist, title, coverUrl), "mode") == Some(UpdateMode)
    ensures Lookup(UpdateParams(artist, title, coverUrl), "song") == Some(Song(artist, title))
    ensures Lookup(UpdateParams(artist, title, coverUrl), "url") ==
            (if coverUrl != "" then Some(coverUrl) else None)
  {
    var p := UpdateParams(artist, title, coverUrl);
    assert "mode" != "mount" && "song" != "mount" && "url" != "mount";
    assert "song" != "mode" && "url" != "mode" && "url" != "song";
    var rest := if coverUrl != "" then [("url", coverUrl)] else [];
    assert p[1..][1..] == [("song", Song(artist, title))] + rest;
    assert p[1..][1..][1..] == rest;
    assert Lookup(p, "song") == Lookup(p[1..][1..], "song");
    assert Lookup(p, "url") == Lookup(rest, "url") by {
      assert Lookup(p, "url") == Lookup(p[1..][1..], "url");
    }
  }
}
