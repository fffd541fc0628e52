/** The bookmark records the list works on. */
module Records {

  /**
   * A row of the `bookmarks` table (src/types/supabase.ts). `createdAt` is the
   * creation time in milliseconds, the value `new Date(created_at).getTime()`
   * yields.
   */
  datatype Row = Row(id: string, userId: string, title: string, url: string, createdAt: int)

  /** `BookmarkItem`: a row plus the flag of an item not yet confirmed by the server. */
  datatype Item = Item(id: string, userId: string, title: string, url: string, createdAt: int, optimistic: bool)

  /** A row as the list holds it: a server row carries no `optimistic` flag. */
  function ItemOf(r: Row): Item {
    Item(r.id, r.userId, r.title, r.url, r.createdAt, false)
  }
}
