/** The client's `taskSchema`: `title` and `description` must be strings, of any length. */
module TaskSchema {
  import opened Http

  const TitleRequired := "Title is required"
  const DescriptionRequired := "Description is required"

  function TaskSchema(f: Form): (r: seq<Issue>)
    ensures r == [] <==> "title" in f && "description" in f
    ensures Issue("title", TitleRequired) in r <==> "title" !in f
    ensures Issue("description", DescriptionRequired) in r <==> "description" !in f
    ensures |r| == (if "title" in f then 0 else 1) + (if "description" in f then 0 else 1)
  {
    (if "title" in f then [] else [Issue("title", TitleRequired)])
    + (if "description" in f then [] else [Issue("description", DescriptionRequired)])
  }

  /** Only the presence of `title` and `description` matters; other fields and all values do not. */
  lemma OnlyTitleAndDescriptionMatter(f: Form, g: Form)
    requires ("title" in f <==> "title" in g) && ("description" in f <==> "description" in g)
    ensures TaskSchema(f) == TaskSchema(g)
  {
  }
}
