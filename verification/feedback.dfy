/**
 Feedback entries and the in-memory list that holds them for the lifetime of
 the server process.
 */
module Feedback {

  datatype Entry = Entry(id: int, title: string, description: string)

  /** The feedback list, in insertion order. */
  type Store = seq<Entry>

  /** The two entries the list holds when the process starts. */
  const Seed: Store := [
    Entry(1, "Lorem",
      "Lorem ipsum dolor sit amet consectetur adipisicing elit. Animi, dicta fugit ad, aperiam quo doloremque eaque, pariatur laudantium sequi id officiis eos veritatis recusandae accusamus earum nobis quasi laboriosam nam."),
    Entry(2, "Ipsum",
      "Lorem ipsum dolor sit amet consectetur adipisicing elit. Fugit, quos exercitationem! Iusto, iure molestiae. Quisquam, ducimus cupiditate blanditiis dignissimos cumque harum. Fugit ab inventore iste possimus impedit maxime dolore nam!")
  ]

  /** The list invariant: every entry's id is its one-based position, and no
      entry has an empty title or description. */
  predicate Valid(store: Store) {
    forall i :: 0 <= i < |store| ==>
      store[i].id == i + 1 && |store[i].title| >= 1 && |store[i].description| >= 1
  }

  /** The process starts in a state that satisfies the invariant. */
  lemma SeedValid()
    ensures Valid(Seed)
    ensures |Seed| == 2
  {
  }

  /** Under the invariant, ids are strictly increasing along the list, hence
      pairwise distinct, and the id the next append uses is not yet taken. */
  lemma ValidIds(store: Store)
    requires Valid(store)
    ensures forall i, j :: 0 <= i < j < |store| ==> store[i].id < store[j].id
    ensures forall i, j :: 0 <= i < |store| && 0 <= j < |store| && i != j ==> store[i].id != store[j].id
    ensures forall e :: e in store ==> 1 <= e.id <= |store|
  {
  }
}
