/**
 The two request handlers of the index route: the loader, which returns the
 feedback list, and the form action, which validates a submission and appends
 it to the list. The handlers' shared mutable list is modelled by passing the
 list in and returning the updated one.
 */
module Routes {
  import opened Validation
  import opened Feedback

  const ListNotFound: string := "Lista não encontrada."
  const Created: string := "Feedback criado com sucesso!"

  /** What the loader answers. */
  datatype LoaderResponse = NotFound(error: string) | Feedbacks(feedbacks: Store) {
    function Status(): int {
      if NotFound? then 404 else 200
    }
  }

  /** What the form action answers. */
  datatype ActionResponse = Rejected(errors: ValidationErrors) | Accepted(data: string) {
    function Status(): int {
      if Rejected? then 400 else 200
    }
  }

  /** One form submission: the outcome of reading its two fields. */
  datatype Submission = Submission(title: FormValue, description: FormValue)

  /** The loader. `list` is the binding of the feedback list: `None` when the
      binding is absent. An existing list is never falsy, even when empty. */
  function Loader(list: Option<Store>): (r: LoaderResponse)
    ensures r.NotFound? <==> list == None
    ensures r.NotFound? ==> r.error == ListNotFound && r.Status() == 404
    ensures list.Some? ==> r == Feedbacks(list.value) && r.Status() == 200
  {
    match list
    case None => NotFound(ListNotFound)
    case Some(feedbacks) => Feedbacks(feedbacks)
  }

  /** The form action: returns the response and the list after the request. */
  function Action(store: Store, title: FormValue, description: FormValue): (r: (ActionResponse, Store))
    ensures r.0.Accepted? <==> Filled(title) && Filled(description)
    ensures r.0.Accepted? ==>
      && title.Str? && description.Str?
      && r.0.data == Created
      && r.0.Status() == 200
      && r.1 == store + [Entry(|store| + 1, title.text, description.text)]
    ensures r.0.Rejected? ==>
      && r.1 == store
      && r.0.Status() == 400
      && (r.0.errors.title == Some(TitleRequired) <==> !Filled(title))
      && (r.0.errors.title == None <==> Filled(title))
      && (r.0.errors.description == Some(DescriptionRequired) <==> !Filled(description))
      && (r.0.errors.description == None <==> Filled(description))
      && (r.0.errors.title.Some? || r.0.errors.description.Some?)
  {
    var id := |store| + 1;
    match Validate(title, description)
    case Some(errors) => (Rejected(errors), store)
    case None => (Accepted(Created), store + [Entry(id, title.text, description.text)])
  }

  /** An accepted submission extends the list; entries already there are
      untouched (the old list is a prefix of the new one). */
  lemma ActionExtends(store: Store, title: FormValue, description: FormValue)
    ensures store <= Action(store, title, description).1
    ensures |Action(store, title, description).1| == |store| + (if Filled(title) && Filled(description) then 1 else 0)
  {
  }

  /** A single request keeps the list invariant. */
  lemma ActionPreservesValid(store: Store, title: FormValue, description: FormValue)
    requires Valid(store)
    ensures Valid(Action(store, title, description).1)
  {
  }

  /** The number of submissions in `subs` that pass validation. */
  function AcceptedCount(subs: seq<Submission>): (n: nat)
    ensures n <= |subs|
  {
    if subs == [] then 0
    else (if Filled(subs[0].title) && Filled(subs[0].description) then 1 else 0) + AcceptedCount(subs[1..])
  }

  /** Handles the submissions one after another, in order, starting from
      `store`; returns the list after the last one. Each request appends at
      most one entry. */
  function Run(store: Store, subs: seq<Submission>): (r: Store)
    ensures |r| == |store| + AcceptedCount(subs)
    ensures |r| <= |store| + |subs|
    ensures store <= r
    decreases |subs|
  {
    if subs == [] then store
    else
      var next := Action(store, subs[0].title, subs[0].description).1;
      ActionExtends(store, subs[0].title, subs[0].description);
      Run(next, subs[1..])
  }

  /** Every sequence of requests keeps the list invariant. */
  lemma {:induction false} RunPreservesValid(store: Store, subs: seq<Submission>)
    requires Valid(store)
    ensures Valid(Run(store, subs))
    decreases |subs|
  {
    if subs != [] {
      ActionPreservesValid(store, subs[0].title, subs[0].description);
      RunPreservesValid(Action(store, subs[0].title, subs[0].description).1, subs[1..]);
    }
  }

  /** Any state the process can reach from its start: ids are positions + 1,
      strictly increasing and distinct, every title and description is
      non-empty, the seed entries are still at the front, and the loader
      returns the whole list and never its not-found answer. */
  lemma Reachable(subs: seq<Submission>)
    ensures var s := Run(Seed, subs);
      && Valid(s)
      && Seed <= s
      && |s| == 2 + AcceptedCount(subs) <= 2 + |subs|
      && (forall i, j :: 0 <= i < j < |s| ==> s[i].id < s[j].id)
      && Loader(Some(s)) == Feedbacks(s)
  {
    SeedValid();
    RunPreservesValid(Seed, subs);
    ValidIds(Run(Seed, subs));
  }

  /** Example exchanges with a freshly started process. */
  lemma Scenarios()
    ensures Action(Seed, Str("Hello"), Str("World"))
         == (Accepted(Created), Seed + [Entry(3, "Hello", "World")])
    ensures Action(Seed, Str(""), Str("World"))
         == (Rejected(ValidationErrors(Some(TitleRequired), None)), Seed)
    ensures Action(Seed, Str(""), Str(""))
         == (Rejected(ValidationErrors(Some(TitleRequired), Some(DescriptionRequired))), Seed)
    ensures Loader(Some(Seed)) == Feedbacks(Seed)
  {
  }
}
