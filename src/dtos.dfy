/** The response shapes the services and controllers build. */
module Dtos {
  import opened Wrappers
  import opened Entities

  /** A photo without its bytes; userId and galleryId are only filled in by the
      gallery service. */
  datatype PhotoDto = PhotoDto(
    id: nat,
    title: string,
    description: Option<string>,
    originalFilename: Option<string>,
    contentType: Option<string>,
    size: Option<int>,
    userId: Option<nat>,
    galleryId: Option<nat>)

  /** `new PhotoDto(photo)`: the six descriptive fields, no owner or gallery. */
  function PhotoDtoOf(p: Photo): (d: PhotoDto)
    ensures d.id == p.id && d.title == p.title && d.description == p.description
    ensures d.originalFilename == p.originalFilename && d.contentType == p.contentType && d.size == p.size
    ensures d.userId.None? && d.galleryId.None?
  {
    PhotoDto(p.id, p.title, p.description, p.originalFilename, p.contentType, p.size, None, None)
  }

  datatype GalleryDto = GalleryDto(
    id: nat,
    name: string,
    description: Option<string>,
    userId: nat,
    photoCount: nat,
    createdAt: Time,
    updatedAt: Time,
    previewPhotos: Option<seq<PhotoDto>>)

  /** PhotoService.PhotoMetadata: the stored fields without the image bytes. */
  datatype PhotoMetadata = PhotoMetadata(
    id: nat,
    title: string,
    description: Option<string>,
    originalFilename: Option<string>,
    contentType: Option<string>,
    size: Option<int>)
}
