/** The GitHub widget (assets/js/modules/github.js): a keyed response cache
    whose entries expire after 15 minutes, the profile and repository
    fetches that consult it first, the fork filter, the all-or-nothing
    update of the page, and the display fallbacks. */
module GitHub {
  import opened Wrappers
  import opened Storage

  /** `cacheExpiry`: 15 minutes in milliseconds. */
  const CacheExpiry: int := 15 * 60 * 1000

  const UserKey := "user-data"
  const ReposKey := "repos-data"
  const UserUrl := "https://api.github.com/users/yunfunChen"
  const ReposUrl := "https://api.github.com/users/yunfunChen/repos?sort=updated&per_page=6"

  const DefaultBio := "Passionate Software Engineer"
  const NoDescription := "No description available"
  const ErrorText := "Error loading GitHub data"

  /** The fields of `GET /users/{username}` the widget reads. */
  datatype User = User(name: Option<string>, login: string, bio: Option<string>,
                       publicRepos: int, followers: int, following: int)

  /** The fields of one repository record the widget reads. */
  datatype Repo = Repo(name: string, htmlUrl: string, description: Option<string>,
                       language: Option<string>, stars: int, forks: int, fork: bool)

  /** What the cache holds under its two keys. */
  datatype Payload = UserData(user: User) | RepoList(repos: seq<Repo>)

  datatype Entry = Entry(data: Payload, timestamp: int)

  type Cache = map<string, Entry>

  /** The answer the server gives to one request: a parsed body for a 2xx
      response, the status of any other response, a failed request, or a
      2xx response whose body is not the JSON expected. */
  datatype Reply<T> = Ok(body: T) | HttpError(status: int) | NetworkError | MalformedBody

  /** A fetch resolves with a value or rejects. */
  datatype Outcome<T> = Fetched(value: T) | Rejected

  // ---------------------------------------------------------------------------
  // The cache

  /** `getFromCache(key)` at time `now`: the data of an entry younger than the
      expiry, otherwise nothing. */
  function CacheLookup(cache: Cache, key: string, now: int): (r: Option<Payload>)
    ensures r.Some? ==> key in cache && r.value == cache[key].data
    ensures r.Some? <==> key in cache && now < cache[key].timestamp + CacheExpiry
  {
    if key in cache && now - cache[key].timestamp < CacheExpiry then Some(cache[key].data) else None
  }

  /** The cache after `setCache(key, data)` at time `now`. */
  function Cached(cache: Cache, key: string, data: Payload, now: int): (r: Cache)
    ensures r.Keys == cache.Keys + {key} && r[key] == Entry(data, now)
    ensures forall k :: k in cache && k != key ==> r[k] == cache[k]
  {
    cache[key := Entry(data, now)]
  }

  /** Reading back what was cached: the data is served until, and not at,
      the moment it is 15 minutes old; every other key answers as before. */
  lemma CacheRoundTrip(cache: Cache, key: string, data: Payload, stored: int, other: string, now: int)
    ensures CacheLookup(Cached(cache, key, data, stored), other, now) ==
              if other == key then (if now - stored < 15 * 60 * 1000 then Some(data) else None)
              else CacheLookup(cache, other, now)
  {
  }

  /** The boundary is strict: an entry exactly 15 minutes old counts as absent. */
  lemma ExpiredAtFifteenMinutes(cache: Cache, key: string, data: Payload, stored: int)
    ensures CacheLookup(Cached(cache, key, data, stored), key, stored + 900000) == None
    ensures CacheLookup(Cached(cache, key, data, stored), key, stored + 899999) == Some(data)
  {
  }

  // ---------------------------------------------------------------------------
  // The fork filter and the display fallbacks

  /** `data.filter(repo => !repo.fork)`. */
  function NonForks(repos: seq<Repo>): (r: seq<Repo>)
    ensures forall x :: x in r <==> x in repos && !x.fork
    ensures |r| <= |repos|
  {
    if repos == [] then []
    else (if repos[0].fork then [] else [repos[0]]) + NonForks(repos[1..])
  }

  /** The filter works record by record, so it keeps the original order:
      filtering a concatenation filters each part. */
  lemma {:induction false} NonForksAppend(a: seq<Repo>, b: seq<Repo>)
    ensures NonForks(a + b) == NonForks(a) + NonForks(b)
  {
    if a == [] {
      assert a + b == b;
    } else {
      assert (a + b)[0] == a[0];
      assert (a + b)[1..] == a[1..] + b;
      NonForksAppend(a[1..], b);
    }
  }

  /** Filtering again changes nothing: a cached list is already fork-free. */
  lemma {:induction false} NonForksIdempotent(repos: seq<Repo>)
    ensures NonForks(NonForks(repos)) == NonForks(repos)
  {
    if repos != [] {
      NonForksIdempotent(repos[1..]);
      var head := if repos[0].fork then [] else [repos[0]];
      NonForksAppend(head, NonForks(repos[1..]));
    }
  }

  predicate NoForks(repos: seq<Repo>) {
    forall i :: 0 <= i < |repos| ==> !repos[i].fork
  }

  /** A list without forks passes the filter unchanged. */
  lemma {:induction false} NonForksOfForkFree(repos: seq<Repo>)
    requires NoForks(repos)
    ensures NonForks(repos) == repos
  {
    if repos != [] {
      NonForksOfForkFree(repos[1..]);
    }
  }

  /** The name shown: `name` when truthy, else `login`. */
  function DisplayName(u: User): (r: string)
    ensures Truthy(u.name) ==> r == u.name.value
    ensures !Truthy(u.name) ==> r == u.login
  {
    if Truthy(u.name) then u.name.value else u.login
  }

  /** The bio shown: `bio` when truthy, else the default line. */
  function DisplayBio(u: User): (r: string)
    ensures r != ""
    ensures Truthy(u.bio) ==> r == u.bio.value
    ensures !Truthy(u.bio) ==> r == DefaultBio
  {
    if Truthy(u.bio) then u.bio.value else DefaultBio
  }

  /** The rendered part of a repository card. */
  datatype Card = Card(name: string, url: string, description: string, language: Option<string>,
                       stars: int, forks: int)

  /** `createRepoCard`, without the markup: a missing or empty description
      shows the placeholder; the language tag appears only for a truthy language. */
  function RepoCard(r: Repo): (c: Card)
    ensures c.description != ""
    ensures c.name == r.name && c.url == r.htmlUrl && c.stars == r.stars && c.forks == r.forks
    ensures c.language.Some? <==> Truthy(r.language)
    ensures c.language.Some? ==> c.language == r.language
    ensures Truthy(r.description) ==> c.description == r.description.value
    ensures !Truthy(r.description) ==> c.description == NoDescription
  {
    Card(r.name, r.htmlUrl,
         if Truthy(r.description) then r.description.value else NoDescription,
         if Truthy(r.language) then r.language else None,
         r.stars, r.forks)
  }

  // ---------------------------------------------------------------------------
  // What the two fetches resolve with, and the cache they leave

  /** What `fetchUserData` resolves with: a fresh cache entry, else the body
      of a 2xx reply that parsed, else a rejection. */
  function UserOutcome(cache: Cache, now: int, reply: Reply<User>): (r: Outcome<User>)
    requires UserKey in cache ==> cache[UserKey].data.UserData?
    ensures r.Fetched? <==> CacheLookup(cache, UserKey, now).Some? || reply.Ok?
    ensures CacheLookup(cache, UserKey, now).Some? ==> r.value == cache[UserKey].data.user
    ensures CacheLookup(cache, UserKey, now).None? && reply.Ok? ==> r.value == reply.body
  {
    match CacheLookup(cache, UserKey, now)
    case Some(p) => Fetched(p.user)
    case None => if reply.Ok? then Fetched(reply.body) else Rejected
  }

  /** The cache after `fetchUserData`: only a network answer is stored,
      stamped with the time it arrived. */
  function AfterUserFetch(cache: Cache, now: int, reply: Reply<User>, answered: int): (r: Cache)
    ensures forall k :: k != UserKey ==> (k in r <==> k in cache) && (k in cache ==> r[k] == cache[k])
    ensures r != cache ==> reply.Ok? && CacheLookup(cache, UserKey, now).None?
    ensures reply.Ok? && CacheLookup(cache, UserKey, now).None? ==>
              UserKey in r && r[UserKey] == Entry(UserData(reply.body), answered)
  {
    if CacheLookup(cache, UserKey, now).None? && reply.Ok? then Cached(cache, UserKey, UserData(reply.body), answered)
    else cache
  }

  /** What `fetchRepositories` resolves with: a fresh cache entry, else the
      non-forks of a 2xx reply that parsed, else a rejection. */
  function ReposOutcome(cache: Cache, now: int, reply: Reply<seq<Repo>>): (r: Outcome<seq<Repo>>)
    requires ReposKey in cache ==> cache[ReposKey].data.RepoList?
    ensures r.Fetched? <==> CacheLookup(cache, ReposKey, now).Some? || reply.Ok?
    ensures CacheLookup(cache, ReposKey, now).Some? ==> r.value == cache[ReposKey].data.repos
    ensures CacheLookup(cache, ReposKey, now).None? && reply.Ok? ==> r.value == NonForks(reply.body)
  {
    match CacheLookup(cache, ReposKey, now)
    case Some(p) => Fetched(p.repos)
    case None => if reply.Ok? then Fetched(NonForks(reply.body)) else Rejected
  }

  function AfterReposFetch(cache: Cache, now: int, reply: Reply<seq<Repo>>, answered: int): (r: Cache)
    ensures forall k :: k != ReposKey ==> (k in r <==> k in cache) && (k in cache ==> r[k] == cache[k])
    ensures r != cache ==> reply.Ok? && CacheLookup(cache, ReposKey, now).None?
    ensures reply.Ok? && CacheLookup(cache, ReposKey, now).None? ==>
              ReposKey in r && r[ReposKey] == Entry(RepoList(NonForks(reply.body)), answered)
  {
    if CacheLookup(cache, ReposKey, now).None? && reply.Ok? then Cached(cache, ReposKey, RepoList(NonForks(reply.body)), answered)
    else cache
  }

  /** A list served by `fetchRepositories` never holds a fork, whether it
      comes from the network or from a cache that only ever stored filtered lists. */
  lemma ReposOutcomeForkFree(cache: Cache, now: int, reply: Reply<seq<Repo>>, answered: int)
    requires ReposKey in cache ==> cache[ReposKey].data.RepoList? && NoForks(cache[ReposKey].data.repos)
    ensures ReposOutcome(cache, now, reply).Fetched? ==> NoForks(ReposOutcome(cache, now, reply).value)
    ensures var after := AfterReposFetch(cache, now, reply, answered);
            ReposKey in after ==> after[ReposKey].data.RepoList? && NoForks(after[ReposKey].data.repos)
  {
  }

  /** Within 15 minutes of a successful network fetch, the next fetch of the
      same data is answered from the cache with the same value, whatever the
      server would now say; from 15 minutes on, the server is asked again
      (the clock does not run backwards). */
  lemma {:induction false} RefetchServedFromCache(cache: Cache, now: int, reply: Reply<seq<Repo>>, answered: int,
                                                  later: int, reply2: Reply<seq<Repo>>)
    requires ReposKey in cache ==> cache[ReposKey].data.RepoList?
    requires CacheLookup(cache, ReposKey, now).None? && reply.Ok?
    requires now <= later
    ensures var after := AfterReposFetch(cache, now, reply, answered);
      && (later - answered < CacheExpiry ==>
            ReposOutcome(after, later, reply2) == ReposOutcome(cache, now, reply)
            && AfterReposFetch(after, later, reply2, later) == after)
      && (later - answered >= CacheExpiry ==> ReposOutcome(after, later, reply2) == ReposOutcome(cache, later, reply2))
  {
    var after := AfterReposFetch(cache, now, reply, answered);
    var data := RepoList(NonForks(reply.body));
    assert after == Cached(cache, ReposKey, data, answered);
    CacheRoundTrip(cache, ReposKey, data, answered, ReposKey, later);
  }

  // ---------------------------------------------------------------------------
  // The widget

  const NameId := "github-name"
  const BioId := "github-bio"
  const RepoCountId := "repo-count"
  const FollowersId := "followers-count"
  const FollowingId := "following-count"

  class GitHubManager {
    var cache: Cache
    /** Every network request issued, in order. */
    var requests: seq<string>
    /** Ids of the profile elements present on the page. */
    const present: set<string>
    /** Whether the page has the `repos-grid` container. */
    const hasGrid: bool
    var nameText: Option<string>
    var bioText: Option<string>
    /** Whether the bio is drawn in the error colour. */
    var bioIsError: bool
    var repoCount: Option<int>
    var followersCount: Option<int>
    var followingCount: Option<int>
    /** The cards of the repository grid, in order. */
    var cards: seq<Card>

    /** Each key holds its own kind of payload, and the cached list is fork-free. */
    ghost predicate Valid()
      reads this
    {
      && (UserKey in cache ==> cache[UserKey].data.UserData?)
      && (ReposKey in cache ==> cache[ReposKey].data.RepoList? && NoForks(cache[ReposKey].data.repos))
    }

    constructor (present: set<string>, hasGrid: bool)
      ensures Valid() && cache == map[] && requests == [] && cards == []
      ensures nameText == None && bioText == None && !bioIsError
      ensures this.present == present && this.hasGrid == hasGrid
    {
      cache := map[];
      requests := [];
      this.present := present;
      this.hasGrid := hasGrid;
      nameText := None;
      bioText := None;
      bioIsError := false;
      repoCount := None;
      followersCount := None;
      followingCount := None;
      cards := [];
    }

    /** `setCache`: only `key` changes, to the data stamped with `now`. */
    method SetCache(key: string, data: Payload, now: int)
      modifies this`cache
      ensures cache == Cached(old(cache), key, data, now)
    {
      cache := cache[key := Entry(data, now)];
    }

    /** `fetchUserData`, checked at `now` and answered at `answered`: a fresh
        cache entry answers without a request; otherwise exactly one request
        is made and only a 2xx reply that parsed is cached. */
    method FetchUserData(now: int, reply: Reply<User>, answered: int) returns (r: Outcome<User>)
      requires Valid()
      modifies this`cache, this`requests
      ensures Valid()
      ensures r == UserOutcome(old(cache), now, reply)
      ensures cache == AfterUserFetch(old(cache), now, reply, answered)
      ensures requests == old(requests) + (if CacheLookup(old(cache), UserKey, now).Some? then [] else [UserUrl])
    {
      var hit := CacheLookup(cache, UserKey, now);
      if hit.Some? {
        return Fetched(hit.value.user);
      }
      requests := requests + [UserUrl];
      if !reply.Ok? {
        return Rejected;
      }
      SetCache(UserKey, UserData(reply.body), answered);
      r := Fetched(reply.body);
    }

    /** `fetchRepositories`: as `fetchUserData`, and what is cached and
        returned is the reply without its forks. */
    method FetchRepositories(now: int, reply: Reply<seq<Repo>>, answered: int) returns (r: Outcome<seq<Repo>>)
      requires Valid()
      modifies this`cache, this`requests
      ensures Valid()
      ensures r == ReposOutcome(old(cache), now, reply)
      ensures r.Fetched? ==> NoForks(r.value)
      ensures cache == AfterReposFetch(old(cache), now, reply, answered)
      ensures requests == old(requests) + (if CacheLookup(old(cache), ReposKey, now).Some? then [] else [ReposUrl])
    {
      ReposOutcomeForkFree(cache, now, reply, answered);
      var hit := CacheLookup(cache, ReposKey, now);
      if hit.Some? {
        return Fetched(hit.value.repos);
      }
      requests := requests + [ReposUrl];
      if !reply.Ok? {
        return Rejected;
      }
      var filtered := NonForks(reply.body);
      SetCache(ReposKey, RepoList(filtered), answered);
      r := Fetched(filtered);
    }

    /** `updateUserInfo`: each profile element present shows its field,
        with the fallbacks for name and bio; absent ones are skipped. */
    method UpdateUserInfo(u: User)
      modifies this`nameText, this`bioText, this`repoCount, this`followersCount, this`followingCount
      ensures nameText == (if NameId in present then Some(DisplayName(u)) else old(nameText))
      ensures bioText == (if BioId in present then Some(DisplayBio(u)) else old(bioText))
      ensures repoCount == (if RepoCountId in present then Some(u.publicRepos) else old(repoCount))
      ensures followersCount == (if FollowersId in present then Some(u.followers) else old(followersCount))
      ensures followingCount == (if FollowingId in present then Some(u.following) else old(followingCount))
    {
      if NameId in present { nameText := Some(DisplayName(u)); }
      if BioId in present { bioText := Some(DisplayBio(u)); }
      if RepoCountId in present { repoCount := Some(u.publicRepos); }
      if FollowersId in present { followersCount := Some(u.followers); }
      if FollowingId in present { followingCount := Some(u.following); }
    }

    /** `updateRepositories`: the grid is emptied and one card is appended
        per repository, in order; nothing happens without the grid. */
    method UpdateRepositories(repos: seq<Repo>)
      modifies this`cards
      ensures hasGrid ==> |cards| == |repos| && forall i :: 0 <= i < |repos| ==> cards[i] == RepoCard(repos[i])
      ensures !hasGrid ==> cards == old(cards)
    {
      if !hasGrid {
        return;
      }
      cards := [];
      var i := 0;
      while i < |repos|
        invariant 0 <= i <= |repos|
        invariant |cards| == i && forall j :: 0 <= j < i ==> cards[j] == RepoCard(repos[j])
      {
        cards := cards + [RepoCard(repos[i])];
        i := i + 1;
      }
    }

    /** `showErrorState`: only the bio changes, to the error text in the error colour. */
    method ShowErrorState()
      modifies this`bioText, this`bioIsError
      ensures BioId in present ==> bioText == Some(ErrorText) && bioIsError
      ensures BioId !in present ==> bioText == old(bioText) && bioIsError == old(bioIsError)
    {
      if BioId in present {
        bioText := Some(ErrorText);
        bioIsError := true;
      }
    }

    /** The two fetches of `loadGitHubData`, user first: each is answered
        as if alone, since neither reads the other's cache key. */
    method FetchBoth(now: int, userReply: Reply<User>, userAnswered: int,
                     reposReply: Reply<seq<Repo>>, reposAnswered: int)
      returns (u: Outcome<User>, r: Outcome<seq<Repo>>)
      requires Valid()
      modifies this`cache, this`requests
      ensures Valid()
      ensures u == UserOutcome(old(cache), now, userReply)
      ensures r == ReposOutcome(old(cache), now, reposReply) && (r.Fetched? ==> NoForks(r.value))
      ensures cache == AfterReposFetch(AfterUserFetch(old(cache), now, userReply, userAnswered), now, reposReply, reposAnswered)
      ensures requests == old(requests) + (if CacheLookup(old(cache), UserKey, now).Some? then [] else [UserUrl])
                                        + (if CacheLookup(old(cache), ReposKey, now).Some? then [] else [ReposUrl])
    {
      u := FetchUserData(now, userReply, userAnswered);
      ghost var midCache := cache;
      r := FetchRepositories(now, reposReply, reposAnswered);
      assert CacheLookup(midCache, ReposKey, now) == CacheLookup(old(cache), ReposKey, now);
    }

    /** `updateUI`, the success path of `loadGitHubData`: the profile, then the grid. */
    method UpdateUI(u: User, repos: seq<Repo>)
      requires NoForks(repos)
      modifies this`nameText, this`bioText, this`repoCount, this`followersCount, this`followingCount, this`cards
      ensures nameText == (if NameId in present then Some(DisplayName(u)) else old(nameText))
      ensures bioText == (if BioId in present then Some(DisplayBio(u)) else old(bioText))
      ensures repoCount == (if RepoCountId in present then Some(u.publicRepos) else old(repoCount))
      ensures followersCount == (if FollowersId in present then Some(u.followers) else old(followersCount))
      ensures followingCount == (if FollowingId in present then Some(u.following) else old(followingCount))
      ensures hasGrid ==> |cards| == |repos| && forall i :: 0 <= i < |cards| ==> cards[i] == RepoCard(repos[i]) && !repos[i].fork
      ensures !hasGrid ==> cards == old(cards)
    {
      UpdateUserInfo(u);
      UpdateRepositories(repos);
    }

    /** `start` / `loadGitHubData`: both fetches are issued (a rejection of
        one does not keep the other from caching its answer); the page is
        updated only when both resolve, and otherwise only the bio shows the
        error. */
    method LoadGitHubData(now: int, userReply: Reply<User>, userAnswered: int,
                          reposReply: Reply<seq<Repo>>, reposAnswered: int)
      requires Valid()
      modifies this`cache, this`requests, this`nameText, this`bioText, this`bioIsError,
               this`repoCount, this`followersCount, this`followingCount, this`cards
      ensures Valid()
      ensures cache == AfterReposFetch(AfterUserFetch(old(cache), now, userReply, userAnswered), now, reposReply, reposAnswered)
      ensures requests == old(requests) + (if CacheLookup(old(cache), UserKey, now).Some? then [] else [UserUrl])
                                        + (if CacheLookup(old(cache), ReposKey, now).Some? then [] else [ReposUrl])
      ensures var u := UserOutcome(old(cache), now, userReply);
              var r := ReposOutcome(old(cache), now, reposReply);
        if u.Fetched? && r.Fetched? then
          && nameText == (if NameId in present then Some(DisplayName(u.value)) else old(nameText))
          && bioText == (if BioId in present then Some(DisplayBio(u.value)) else old(bioText))
          && repoCount == (if RepoCountId in present then Some(u.value.publicRepos) else old(repoCount))
          && followersCount == (if FollowersId in present then Some(u.value.followers) else old(followersCount))
          && followingCount == (if FollowingId in present then Some(u.value.following) else old(followingCount))
          && bioIsError == old(bioIsError)
          && (hasGrid ==> |cards| == |r.value| && forall i :: 0 <= i < |cards| ==> cards[i] == RepoCard(r.value[i]) && !r.value[i].fork)
          && (!hasGrid ==> cards == old(cards))
        else
          && (BioId in present ==> bioText == Some(ErrorText) && bioIsError)
          && (BioId !in present ==> bioText == old(bioText) && bioIsError == old(bioIsError))
          && nameText == old(nameText) && repoCount == old(repoCount) && cards == old(cards)
          && followersCount == old(followersCount) && followingCount == old(followingCount)
    {
      var u, r := FetchBoth(now, userReply, userAnswered, reposReply, reposAnswered);
      if u.Fetched? && r.Fetched? {
        UpdateUI(u.value, r.value);
      } else {
        ShowErrorState();
      }
    }
  }
}
