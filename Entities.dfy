/** The records the app reads from its two remote sources. */
module Entities {
  import opened Common
  import opened Dates

  datatype EventInfo = EventInfo(
    id: string,
    title: string,
    description: string,
    startDate: DateTime,
    endDate: DateTime,
    bannerUrl: string,
    venueName: string,
    venueAddress: string,
    sessionizeDataUrl: string)

  datatype Session = Session(
    id: string,
    title: string,
    description: Option<string>,
    startsAt: DateTime,
    endsAt: DateTime,
    isServiceSession: bool,
    isPlenumSession: bool,
    speakers: seq<string>,
    categoryItems: seq<int>,
    roomId: Option<int>,
    liveUrl: Option<string>,
    recordingUrl: Option<string>,
    status: Option<string>,
    isInformed: bool,
    isConfirmed: bool)

  datatype Link = Link(title: string, url: string, linkType: string)

  datatype Speaker = Speaker(
    id: string,
    firstName: string,
    lastName: string,
    bio: Option<string>,
    tagLine: Option<string>,
    profilePicture: Option<string>,
    isTopSpeaker: bool,
    links: seq<Link>,
    sessions: seq<int>,
    fullName: string)

  datatype CategoryItem = CategoryItem(id: int, name: string, sort: int)

  datatype Category = Category(id: int, title: string, items: seq<CategoryItem>, sort: int, kind: string)

  datatype Room = Room(id: int, name: string, sort: int)

  datatype EventFullData = EventFullData(
    sessions: seq<Session>,
    speakers: seq<Speaker>,
    categories: seq<Category>,
    rooms: seq<Room>)
}
