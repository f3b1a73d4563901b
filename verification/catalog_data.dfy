/** The catalog's records: a collection of CTF challenges split into three
    difficulty buckets. Fields the page treats as optional (JavaScript
    `undefined`) are `Option`s. */
module CatalogData {
  import opened Wrappers

  datatype Difficulty = Easy | Medium | Hard {
    /** The order in which buckets are searched and badges are shown. */
    function Rank(): nat {
      match this
      case Easy => 0
      case Medium => 1
      case Hard => 2
    }
  }

  datatype Challenge = Challenge(
    name: string,
    description: string,
    passwordFormat: string,
    answer: Option<string>,
    imageUrl: Option<string>,
    files: Option<seq<string>>,
    localFolder: Option<string>)

  datatype Buckets = Buckets(easy: seq<Challenge>, medium: seq<Challenge>, hard: seq<Challenge>)

  datatype Collection = Collection(
    id: int,
    title: string,
    description: string,
    status: string,
    totalChallenges: int,
    year: Option<int>,
    githubUrl: string,
    answersUrl: string,
    challenges: Buckets)
  {
    function Bucket(d: Difficulty): seq<Challenge> {
      match d
      case Easy => challenges.easy
      case Medium => challenges.medium
      case Hard => challenges.hard
    }

    /** Every challenge, easy ones first, then medium, then hard. */
    function AllChallenges(): seq<Challenge> {
      challenges.easy + challenges.medium + challenges.hard
    }
  }

  /** JavaScript truthiness of an optional string: absent and `""` are falsy. */
  predicate Truthy(s: Option<string>) {
    s.Some? && s.value != ""
  }
}
