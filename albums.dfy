/** The album handlers of the API gateway over the in-memory album list.

    The package-level slice `data.Albums` is the `albums` field of one
    `AlbumStore`. Gin's request binding is the `bound` parameter (`None` when
    `BindJSON` fails), the `:id` path parameter is `id`, and the JSON response
    written with `IndentedJSON` is the returned `Reply`. */
module AlbumHandlers {
  import opened Wrappers

  const StatusOK := 200
  const StatusCreated := 201
  const StatusNotFound := 404

  /** An album. `model.Album` is not part of this model beyond its `ID`; its
      other JSON fields are kept by name as `fields`. */
  datatype Album = Album(id: string, fields: map<string, string>)

  /** What a handler renders as JSON: the album list, one album, or an object of
      string fields (`gin.H`). */
  datatype Payload = AlbumList(albums: seq<Album>) | OneAlbum(album: Album) | Object(entries: map<string, string>)

  datatype Reply = Reply(status: int, payload: Payload)

  /** Position of the first album whose ID is `id`, if there is one. */
  function FirstWithId(albums: seq<Album>, id: string): (r: Option<nat>)
    ensures r.None? <==> forall j :: 0 <= j < |albums| ==> albums[j].id != id
    ensures r.Some? ==>
      r.value < |albums| && albums[r.value].id == id
        && forall j :: 0 <= j < r.value ==> albums[j].id != id
  {
    if albums == [] then None
    else if albums[0].id == id then Some(0)
    else
      match FirstWithId(albums[1..], id)
      case None => None
      case Some(k) => Some(k + 1)
  }

  /** Appending an album changes a lookup only when no earlier album has the ID. */
  lemma {:induction false} FirstWithIdAfterAppend(albums: seq<Album>, a: Album, id: string)
    ensures FirstWithId(albums + [a], id)
      == if FirstWithId(albums, id).Some? then FirstWithId(albums, id)
         else if a.id == id then Some(|albums|)
         else None
  {
    if albums != [] && albums[0].id != id {
      assert (albums + [a])[1..] == albums[1..] + [a];
      FirstWithIdAfterAppend(albums[1..], a, id);
    }
  }

  /** An album posted with an ID that is already present is never found by
      GetAlbumByID: the earlier album shadows it. */
  lemma DuplicateIdShadowed(albums: seq<Album>, a: Album, k: nat)
    requires k < |albums| && albums[k].id == a.id
    ensures FirstWithId(albums + [a], a.id) == FirstWithId(albums, a.id)
    ensures FirstWithId(albums + [a], a.id) != Some(|albums|)
  {
    FirstWithIdAfterAppend(albums, a, a.id);
  }

  /** An album posted with a new ID is what GetAlbumByID returns for that ID. */
  lemma FreshIdFound(albums: seq<Album>, a: Album)
    requires forall j :: 0 <= j < |albums| ==> albums[j].id != a.id
    ensures FirstWithId(albums + [a], a.id) == Some(|albums|)
  {
    FirstWithIdAfterAppend(albums, a, a.id);
  }

  class AlbumStore {
    var albums: seq<Album>

    constructor (initial: seq<Album>)
      ensures albums == initial
    {
      albums := initial;
    }

    /** GetAlbums: status 200 with the whole list; the list is only read. */
    method GetAlbums() returns (r: Reply)
      ensures r.status == StatusOK && r.payload == AlbumList(albums)
    {
      r := Reply(StatusOK, AlbumList(albums));
    }

    /** PostAlbums: when binding fails the handler writes nothing of its own and
        the list stays; otherwise the album is appended and the reply is 201 with
        the whole new list. */
    method PostAlbums(bound: Option<Album>) returns (r: Option<Reply>)
      modifies this
      ensures bound.None? ==> albums == old(albums) && r == None
      ensures bound.Some? ==>
        && albums == old(albums) + [bound.value]
        && r == Some(Reply(StatusCreated, AlbumList(albums)))
    {
      if bound.None? {
        return None;
      }
      albums := albums + [bound.value];
      r := Some(Reply(StatusCreated, AlbumList(albums)));
    }

    /** GetAlbumByID: status 200 with the first album whose ID is `id`, or 404
        with the message "album not found"; the list is only read. */
    method GetAlbumByID(id: string) returns (r: Reply)
      ensures (exists j :: 0 <= j < |albums| && albums[j].id == id) ==>
        r.status == StatusOK && r.payload == OneAlbum(albums[FirstWithId(albums, id).value])
      ensures (forall j :: 0 <= j < |albums| ==> albums[j].id != id) ==>
        r == Reply(StatusNotFound, Object(map["message" := "album not found"]))
    {
      var i := 0;
      while i < |albums|
        invariant 0 <= i <= |albums|
        invariant forall j :: 0 <= j < i ==> albums[j].id != id
      {
        if albums[i].id == id {
          return Reply(StatusOK, OneAlbum(albums[i]));
        }
        i := i + 1;
      }
      r := Reply(StatusNotFound, Object(map["message" := "album not found"]));
    }
  }
}
