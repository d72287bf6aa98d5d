/** The front end's photo store: the current page of photos, the pagination
    counters copied from the last page response, and the list edits made after
    a create, an update or a delete. Every server answer is a parameter: the
    store's actions are modelled as one step each, given what the request
    resolved or rejected with. */
module PhotoStore {
  import opened Wrappers
  import opened Text
  import Entities
  import PhotoService

  /** A photo as the client receives it. */
  datatype ClientPhoto = ClientPhoto(
    id: int,
    title: string,
    description: Option<string>,
    originalFilename: Option<string>,
    contentType: Option<string>,
    size: Option<int>,
    data: Option<string>)

  /** A browser File: its size in bytes and its MIME type ("" when unknown). */
  datatype ClientFile = ClientFile(size: nat, mimeType: string)

  /** The page response the store copies from. */
  datatype PageResponse = PageResponse(content: seq<ClientPhoto>, number: nat, size: nat,
                                       totalElements: nat, totalPages: nat)

  /** The (page, size) a fetch asks the server for. */
  datatype PageRequest = PageRequest(page: int, size: int)

  /** The store's refs. */
  datatype State = State(
    photos: seq<ClientPhoto>,
    loading: bool,
    error: Option<string>,
    currentPage: nat,
    pageSize: nat,
    totalElements: nat,
    totalPages: nat)
  {
    predicate HasPhotos() { |photos| > 0 }
    function PhotoCount(): nat { |photos| }
    function TotalPhotoCount(): nat { totalElements }
    predicate HasNextPage() { currentPage < totalPages - 1 }
    predicate HasPreviousPage() { currentPage > 0 }
    predicate IsFirstPage() { currentPage == 0 }
    predicate IsLastPage() { currentPage == totalPages - 1 }
  }

  /** The state the store starts in: no photos, page 0 of size 10. */
  function Initial(): (s: State)
    ensures !s.HasPhotos() && s.IsFirstPage() && !s.HasNextPage() && !s.IsLastPage()
  {
    State([], false, None, 0, 10, 0, 0)
  }

  /** The pagination flags: first and previous are exact opposites; on a page
      inside the result, last and next are too; with no pages at all, the page
      is neither last nor followed by another. */
  lemma PageFlags(s: State)
    ensures s.IsFirstPage() <==> !s.HasPreviousPage()
    ensures s.currentPage < s.totalPages ==> (s.IsLastPage() <==> !s.HasNextPage())
    ensures s.totalPages == 0 ==> !s.IsLastPage() && !s.HasNextPage()
    ensures s.HasNextPage() ==> s.currentPage + 1 < s.totalPages
  {
  }

  /** The message kept for a failed request: the Error's message, or the action's own text. */
  function FailureText(message: Option<string>, fallback: string): (m: string)
    ensures message.Some? ==> m == message.value
    ensures message.None? ==> m == fallback
  {
    if message.Some? then message.value else fallback
  }

  /** What fetchPhotos leaves: the response's page copied on success, the
      error kept on failure, and never loading. */
  function Fetched(s: State, response: Completion<PageResponse>): State {
    match response
    case Returned(page) =>
      s.(photos := page.content, currentPage := page.number, pageSize := page.size,
         totalElements := page.totalElements, totalPages := page.totalPages, loading := false, error := None)
    case Threw(message) =>
      s.(error := Some(FailureText(message, "Failed to fetch photos")), loading := false)
  }

  /** A fetch never leaves the store loading; a success copies the page and
      clears the error; a failure records it and keeps the photos and counters. */
  lemma FetchedOutcomes(s: State, response: Completion<PageResponse>)
    ensures !Fetched(s, response).loading
    ensures response.Returned? ==>
              var t := Fetched(s, response);
              && t.photos == response.value.content && t.currentPage == response.value.number
              && t.pageSize == response.value.size && t.totalElements == response.value.totalElements
              && t.totalPages == response.value.totalPages && t.error.None?
    ensures response.Threw? ==>
              var t := Fetched(s, response);
              && t.error.Some? && t.photos == s.photos && t.currentPage == s.currentPage
              && t.pageSize == s.pageSize && t.totalElements == s.totalElements && t.totalPages == s.totalPages
  {
  }

  /** The file checks addPhoto and updatePhoto make before anything else: the
      message thrown, or None when the file passes. */
  function FileRejection(file: ClientFile): (m: Option<string>)
    ensures m.None? <==> file.size <= Entities.MaxImageBytes && StartsWith(file.mimeType, "image/")
  {
    if file.size > 8 * 1024 * 1024 then Some("File size exceeds maximum limit of 8MB")
    else if !StartsWith(file.mimeType, "image/") then Some("Please select a valid image file (JPG, PNG, GIF, WebP)")
    else None
  }

  /** The client's file checks agree with the server's upload checks for a file
      whose type the browser knows. */
  lemma FileChecksAgree(upload: Entities.Upload)
    requires upload.contentType.Some?
    ensures FileRejection(ClientFile(upload.Size(), upload.contentType.value)).None? <==>
              PhotoService.ValidateUpload(upload) == Done
  {
  }

  /** findIndex by id: the first position holding that id, or -1. */
  function FindIndex(photos: seq<ClientPhoto>, id: int): (i: int)
    ensures -1 <= i < |photos|
    ensures i == -1 <==> forall k :: 0 <= k < |photos| ==> photos[k].id != id
    ensures i >= 0 ==> photos[i].id == id && forall k :: 0 <= k < i ==> photos[k].id != id
  {
    if photos == [] then -1
    else if photos[0].id == id then 0
    else
      var i := FindIndex(photos[1..], id);
      if i == -1 then -1 else i + 1
  }

  /** The list after updatePhoto's edit: the first entry with the id replaced. */
  function ReplaceFirst(photos: seq<ClientPhoto>, id: int, updated: ClientPhoto): seq<ClientPhoto> {
    var i := FindIndex(photos, id);
    if i == -1 then photos else photos[i := updated]
  }

  /** Only the first entry with the id changes; the length and every other
      entry stay, and without such an entry nothing changes. */
  lemma ReplaceFirstChangesOneEntry(photos: seq<ClientPhoto>, id: int, updated: ClientPhoto)
    ensures var r := ReplaceFirst(photos, id, updated);
            && |r| == |photos|
            && (forall k :: 0 <= k < |photos| && photos[k].id != id ==> r[k] == photos[k])
            && (forall k :: 0 <= k < |photos| ==> (r[k] != photos[k] ==> k == FindIndex(photos, id)))
            && (FindIndex(photos, id) >= 0 ==> r[FindIndex(photos, id)] == updated)
            && (FindIndex(photos, id) == -1 ==> r == photos)
  {
  }

  /** filter(p => p.id !== id). */
  function Without(photos: seq<ClientPhoto>, id: int): (r: seq<ClientPhoto>)
    ensures |r| <= |photos|
    ensures forall p :: p in r <==> p in photos && p.id != id
  {
    if photos == [] then []
    else if photos[0].id == id then Without(photos[1..], id)
    else [photos[0]] + Without(photos[1..], id)
  }

  /** The filter keeps the order: filtering a concatenation concatenates
      the filtered halves. */
  lemma {:induction false} WithoutKeepsOrder(a: seq<ClientPhoto>, b: seq<ClientPhoto>, id: int)
    ensures Without(a + b, id) == Without(a, id) + Without(b, id)
  {
    if a == [] {
      assert a + b == b;
    } else {
      var ab := a + b;
      assert ab[0] == a[0] && ab[1..] == a[1..] + b;
      WithoutKeepsOrder(a[1..], b, id);
      if a[0].id == id {
        calc {
          Without(ab, id);
          Without(a[1..] + b, id);
          Without(a[1..], id) + Without(b, id);
        }
      } else {
        calc {
          Without(ab, id);
          [a[0]] + Without(a[1..] + b, id);
          [a[0]] + (Without(a[1..], id) + Without(b, id));
          ([a[0]] + Without(a[1..], id)) + Without(b, id);
        }
      }
    }
  }

  /** A single entry is kept exactly when its id differs. */
  lemma WithoutSingle(p: ClientPhoto, id: int)
    ensures Without([p], id) == if p.id != id then [p] else []
  {
    assert [p][1..] == [];
  }

  /** The filter keeps every entry of another id as often as it occurs, and
      none of that id. */
  lemma {:induction false} WithoutKeepsMultiplicity(photos: seq<ClientPhoto>, id: int)
    ensures forall p :: multiset(Without(photos, id))[p] == if p.id != id then multiset(photos)[p] else 0
  {
    if photos != [] {
      WithoutKeepsMultiplicity(photos[1..], id);
      assert photos == [photos[0]] + photos[1..];
    }
  }

  /** Without an entry of that id the filter changes nothing. */
  lemma {:induction false} WithoutAbsentIsIdentity(photos: seq<ClientPhoto>, id: int)
    requires forall k :: 0 <= k < |photos| ==> photos[k].id != id
    ensures Without(photos, id) == photos
  {
    if photos != [] {
      WithoutAbsentIsIdentity(photos[1..], id);
      assert photos == [photos[0]] + photos[1..];
    }
  }

  /** fetchPreviousPage: a fetch of the page before, only when there is one. */
  function PreviousPageFetched(s: State, response: Completion<PageResponse>): State {
    if s.HasPreviousPage() then Fetched(s, response) else s
  }

  /** What deletePhoto leaves after the server deleted the photo: the entries
      with that id gone and, when none is left on a page after the first, the
      previous page fetched. */
  function AfterDelete(s: State, id: int, previous: Completion<PageResponse>): State {
    var filtered := s.(loading := true, error := None, photos := Without(s.photos, id));
    var t := if |filtered.photos| == 0 && !filtered.IsFirstPage() then PreviousPageFetched(filtered, previous)
             else filtered;
    t.(loading := false)
  }

  /** A delete that empties a later page falls back to the page before it; a
      delete that empties nothing, or happens on the first page, keeps the
      page and its counters. */
  lemma AfterDeleteOutcomes(s: State, id: int, previous: Completion<PageResponse>)
    ensures var t := AfterDelete(s, id, previous);
            && !t.loading
            && (Without(s.photos, id) == [] && s.currentPage > 0 && previous.Returned? ==>
                  t.photos == previous.value.content && t.currentPage == previous.value.number)
            && (Without(s.photos, id) != [] || s.currentPage == 0 ==>
                  t.photos == Without(s.photos, id) && t.currentPage == s.currentPage
                  && t.totalPages == s.totalPages && t.error.None?)
  {
  }

  class Store {
    var photos: seq<ClientPhoto>
    var loading: bool
    var error: Option<string>
    var currentPage: nat
    var pageSize: nat
    var totalElements: nat
    var totalPages: nat

    function Snapshot(): State
      reads this
    {
      State(photos, loading, error, currentPage, pageSize, totalElements, totalPages)
    }

    constructor ()
      ensures Snapshot() == Initial()
    {
      photos, loading, error := [], false, None;
      currentPage, pageSize, totalElements, totalPages := 0, 10, 0, 0;
    }

    /** fetchPhotos(page = 0, size = 10): asks for (page, size); `response` is
        what the request resolved or rejected with. */
    method FetchPhotos(response: Completion<PageResponse>, page: int := 0, size: int := 10)
      returns (request: PageRequest)
      modifies this
      ensures request == PageRequest(page, size)
      ensures Snapshot() == Fetched(old(Snapshot()), response)
    {
      request := PageRequest(page, size);
      loading := true;
      error := None;
      match response {
        case Returned(r) =>
          photos := r.content;
          currentPage := r.number;
          pageSize := r.size;
          totalElements := r.totalElements;
          totalPages := r.totalPages;
        case Threw(message) =>
          error := Some(FailureText(message, "Failed to fetch photos"));
      }
      loading := false;
    }

    /** fetchNextPage: the next page, only when there is one. */
    method FetchNextPage(response: Completion<PageResponse>) returns (request: Option<PageRequest>)
      modifies this
      ensures old(Snapshot()).HasNextPage() ==>
                && request == Some(PageRequest(old(currentPage) + 1, old(pageSize)))
                && Snapshot() == Fetched(old(Snapshot()), response)
      ensures !old(Snapshot()).HasNextPage() ==> request.None? && Snapshot() == old(Snapshot())
    {
      request := None;
      if currentPage < totalPages - 1 {
        var asked := FetchPhotos(response, currentPage + 1, pageSize);
        request := Some(asked);
      }
    }

    /** fetchPreviousPage: the previous page, only when there is one. */
    method FetchPreviousPage(response: Completion<PageResponse>) returns (request: Option<PageRequest>)
      modifies this
      ensures old(Snapshot()).HasPreviousPage() ==>
                && request == Some(PageRequest(old(currentPage) - 1, old(pageSize)))
      ensures Snapshot() == PreviousPageFetched(old(Snapshot()), response)
      ensures !old(Snapshot()).HasPreviousPage() ==> request.None?
    {
      request := None;
      if currentPage > 0 {
        var asked := FetchPhotos(response, currentPage - 1, pageSize);
        request := Some(asked);
      }
    }

    /** goToPage: a fetch only for a page inside the result. */
    method GoToPage(page: int, response: Completion<PageResponse>) returns (request: Option<PageRequest>)
      modifies this
      ensures 0 <= page < old(totalPages) ==>
                request == Some(PageRequest(page, old(pageSize))) && Snapshot() == Fetched(old(Snapshot()), response)
      ensures !(0 <= page < old(totalPages)) ==> request.None? && Snapshot() == old(Snapshot())
    {
      request := None;
      if page >= 0 && page < totalPages {
        var asked := FetchPhotos(response, page, pageSize);
        request := Some(asked);
      }
    }

    /** addPhoto: the file checks throw before anything changes; then the
        create request and, once it resolves, a refresh of the current page. */
    method AddPhoto(title: string, description: string, file: ClientFile,
                    created: Completion<ClientPhoto>, refreshed: Completion<PageResponse>)
      returns (r: Completion<ClientPhoto>, refresh: Option<PageRequest>)
      modifies this
      ensures refresh == if FileRejection(file).None? && created.Returned?
                         then Some(PageRequest(old(currentPage), old(pageSize))) else None
      ensures FileRejection(file).Some? ==> r == Threw(FileRejection(file)) && Snapshot() == old(Snapshot())
      ensures FileRejection(file).None? && created.Returned? ==>
                r == created && Snapshot() == Fetched(old(Snapshot()), refreshed)
      ensures FileRejection(file).None? && created.Threw? ==>
                && r == created
                && Snapshot() == old(Snapshot()).(error := Some(FailureText(created.message, "Failed to add photo")),
                                                  loading := false)
    {
      refresh := None;
      var rejection := FileRejection(file);
      if rejection.Some? {
        return Threw(rejection), None;
      }
      loading := true;
      error := None;
      if created.Returned? {
        var asked := FetchPhotos(refreshed, currentPage, pageSize);
        refresh := Some(asked);
        r := created;
      } else {
        error := Some(FailureText(created.message, "Failed to add photo"));
        r := created;
      }
      loading := false;
    }

    /** updatePhoto: a given file is checked first; once the update resolves,
        the first listed entry with that id is replaced in place. */
    method UpdatePhoto(id: int, title: string, description: string, file: Option<ClientFile>,
                       updated: Completion<ClientPhoto>)
      returns (r: Completion<ClientPhoto>)
      modifies this
      ensures file.Some? && FileRejection(file.value).Some? ==>
                r == Threw(FileRejection(file.value)) && Snapshot() == old(Snapshot())
      ensures (file.None? || FileRejection(file.value).None?) && updated.Returned? ==>
                && r == updated
                && Snapshot() == old(Snapshot()).(photos := ReplaceFirst(old(photos), id, updated.value),
                                                  error := None, loading := false)
      ensures (file.None? || FileRejection(file.value).None?) && updated.Threw? ==>
                && r == updated
                && Snapshot() == old(Snapshot()).(error := Some(FailureText(updated.message, "Failed to update photo")),
                                                  loading := false)
    {
      if file.Some? {
        var rejection := FileRejection(file.value);
        if rejection.Some? {
          return Threw(rejection);
        }
      }
      loading := true;
      error := None;
      if updated.Returned? {
        var index := FindIndex(photos, id);
        if index != -1 {
          photos := photos[index := updated.value];
        }
        r := updated;
      } else {
        error := Some(FailureText(updated.message, "Failed to update photo"));
        r := updated;
      }
      loading := false;
    }

    /** deletePhoto: once the delete resolves, the entries with that id are
        dropped and an emptied later page falls back to the previous one. */
    method DeletePhoto(id: int, deleted: Completion<()>, previous: Completion<PageResponse>)
      returns (r: Completion<()>, refetch: Option<PageRequest>)
      modifies this
      ensures r == deleted
      ensures refetch == if deleted.Returned? && Without(old(photos), id) == [] && old(currentPage) != 0
                         then Some(PageRequest(old(currentPage) - 1, old(pageSize))) else None
      ensures deleted.Returned? ==> Snapshot() == AfterDelete(old(Snapshot()), id, previous)
      ensures deleted.Threw? ==>
                Snapshot() == old(Snapshot()).(error := Some(FailureText(deleted.message, "Failed to delete photo")),
                                               loading := false)
    {
      refetch := None;
      loading := true;
      error := None;
      if deleted.Returned? {
        photos := Without(photos, id);
        if |photos| == 0 && currentPage != 0 {
          refetch := FetchPreviousPage(previous);
        }
      } else {
        error := Some(FailureText(deleted.message, "Failed to delete photo"));
      }
      r := deleted;
      loading := false;
    }

    /** clearError. */
    method ClearError()
      modifies this
      ensures Snapshot() == old(Snapshot()).(error := None)
    {
      error := None;
    }
  }
}
