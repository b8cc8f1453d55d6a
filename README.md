# Random-creature quiz card and its asset-cache worker, modelled in Dafny

The page script (`app.js`) shows the artwork of a random creature from a public data
service and, on activation, reveals its kana name. A round draws an id from
`[1, 1010]`, fetches the creature record, chooses a sprite (official artwork first,
then the front sprite), fetches the species record and commits id, sprite and alt
text; a fetch error or a missing sprite just moves on to the next of at most five
trials, and after five failures the card shows a fixed failure text. The toggle
reveals the name from the hidden state (fetching the species record again) and starts
a new round from the revealed state; only Enter and Space activate it from the
keyboard.

The worker (`service-worker.js`) fills the cache `poke-rand-v1` with seven static
assets at install, deletes every other cache at activation, and routes each
intercepted request: cache-first for same-origin non-document GETs, network-first
with `/index.html` as offline fallback for navigations, and no interception for the
rest.

Modules:

- `Wrappers` (`wrappers.dfy`): `Option` and `Fetched` (the outcome of one fetch).
- `Quiz` (`quiz.dfy`): the pure parts of `app.js` (random id, sprite choice, kana
  lookup, alt text) and a specification of one round and of the toggle as
  functions on `Card`, the value of the card's state. It also holds the lemmas about
  that specification.
- `QuizController` (`quiz_controller.dfy`): class `Controller`. Its fields are
  `state.currentId`, `state.revealed` and the DOM attributes the script writes.
  `LoadRandomPokemon` keeps the source's `for` loop with `continue` and early
  `return`. Each method is proved to leave `View()` equal to the specification
  function applied to the old `View()`, and to issue exactly the specified
  requests.
- `CacheStore` (`cache_store.dfy`): the origin's Cache Storage as a value. It is a
  sequence of named caches in creation order, because `caches.match` answers from
  the oldest cache that has the URL. It provides open, put, delete, sweep and
  match, with their lemmas.
- `AssetWorker` (`asset_worker.dfy`): the asset list, the install result
  (`Installed`), the routing table and the fetch handler. Class `Worker` holds the
  store, and its `Install` and `Activate` methods update it. `Activate` keeps the
  source's loop over the cache names.

Network results are inputs. `Trial(draw, creature, species)` gives the
`Math.random()` value of one trial, what the creature fetch gave, and what the
species fetch would give. The reveal takes one `Fetched<Species>`, install one
`Fetched<Response>` per asset, and the fetch handler the outcome of the network
fetch it may make. Request logs (`ApiRequest`) make the fetches the controller
issues visible.

Two behaviours of the code are worth knowing:

- The reveal fetches the species record of `currentId` again (app.js:73); nothing
  from the round is kept for it.
- After five failed trials `currentId` keeps its previous value (app.js:64-66 only
  reset the sprite).

## Model

| member | source | states |
|---|---|---|
| `Quiz.RandomId` | app.js:26-29 | the id drawn from a value of `Math.random()` in [0, 1) is always in [1, 1010] |
| `Quiz.RandomIdSlice` | app.js:28 | id `k` is drawn exactly when the draw lies in [(k-1)/1010, k/1010), so each id gets an equal share of the draws |
| `Quiz.FirstKana` | app.js:33 | `find` gives the index of the first `ja-Hrkt` entry: no earlier entry is one, and the index is the length when there is none |
| `Quiz.KanaName` | app.js:31-35 | the name is the first `ja-Hrkt` entry's name when it is non-empty. Otherwise it is the canonical name, including when `names` is absent or has no kana entry |
| `Quiz.KanaIgnoresLaterEntries` | app.js:33-34 | entries after the first `ja-Hrkt` entry can be replaced without changing the name |
| `Quiz.SelectSprite` | app.js:47-48 | a sprite exists exactly when the artwork or the front sprite is a non-empty string. The artwork wins when present, and the sprite is never empty |
| `Quiz.AltText` | app.js:55 | the alt text is the fixed prefix followed by the kana name and one more character |
| `Quiz.AltTextCloses` | app.js:55 | that last character is the closing `)` |
| `Quiz.Attempt` | app.js:44-61 | one trial succeeds exactly when the creature fetch gave a record with a sprite and the species fetch succeeded; it has no sprite exactly when the record loaded without one. A success carries an id in [1, 1010], the chosen sprite and the kana name |
| `Quiz.TrialRequests` | app.js:46-50 | a trial always fetches the creature record of its drawn id, and fetches the species record of the same id exactly when the record had a sprite |
| `Quiz.FirstFound` | app.js:43-61 | gives the first trial that succeeds: no earlier trial succeeded, and the index is the trial count when none does |
| `Quiz.RoundIsBounded` | app.js:43-61 | a round fetches one creature record per trial it runs. It runs at most 5 trials and stops right after the first success |
| `Quiz.NoSpriteNoSpeciesFetch` | app.js:46-50 | trials without a sprite issue creature fetches only, never a species fetch |
| `Quiz.AllFailingRoundRunsFiveTrials` | app.js:43-48 | when no trial has a sprite, the round makes exactly 5 creature fetches and no species fetch |
| `Quiz.AfterLoad` | app.js:37-67 | after a round the name is empty and hidden and `revealed` is false. The first successful trial sets id, sprite and alt from that trial. If none succeeds, the sprite src is removed, the alt is the failure text and the id is kept |
| `Quiz.FailuresAreInterchangeable` | app.js:45-61 | a fetch error, a missing sprite and a failed species fetch are handled alike. Rounds that agree on every success end in the same card |
| `Quiz.AfterReveal` | app.js:70-82 | a reveal marks the card revealed and the name visible, shows `名前取得に失敗` when the fetch fails, and changes no other field |
| `Quiz.AfterToggle` | app.js:69-86 | each activation flips `revealed`, and the name is visible exactly when revealed; `RevealFromHidden` and `NextFromRevealed` give the two branches |
| `Quiz.RevealFromHidden` | app.js:69-82 | from hidden, activation always reveals: the name is visible and shows the kana name, or `名前取得に失敗` when the fetch fails. Sprite and id do not change |
| `Quiz.NextFromRevealed` | app.js:83-85 | from revealed, activation is a new round, which hides the name again |
| `Quiz.NoDoubleReveal` | app.js:69-85 | two activations from hidden reveal once and then start a new round |
| `Quiz.ToggleKeepsConsistent` | app.js:37-86 | rounds and toggles keep the card consistent: the id is in range, the name is visible exactly when revealed, and a hidden name is empty |
| `QuizController.Controller.constructor` | app.js:9-12 | initial state: no id, not revealed; the element fields are those left by the first round's reset (app.js:38-40) |
| `QuizController.Controller.LoadRandomPokemon` | app.js:37-67 | the loop leaves the card equal to `AfterLoad` of the old card and issues exactly the round's requests |
| `QuizController.Controller.RevealOrNext` | app.js:69-86 | the card becomes `AfterToggle` of the old card. The requests are one species fetch for `currentId` when hidden, and a whole round when revealed |
| `QuizController.Controller.KeyDown` | app.js:90-95 | only Enter or Space activates the toggle, and then the card and the requests are those of `RevealOrNext`. Any other key changes nothing and fetches nothing |
| `AssetWorker.AssetsWellChosen` | service-worker.js:2-10 | the asset list has seven distinct paths and `/index.html` is one of them |
| `AssetWorker.AssetUrls` | service-worker.js:2-10 | resolving the assets against the origin gives seven distinct URLs |
| `AssetWorker.Entries` | service-worker.js:14 | the batch `addAll` writes has exactly the asset URLs as keys, each with its own response |
| `CacheStore.Names` | service-worker.js:20 | `keys()` lists one name per cache, in creation order |
| `CacheStore.Open` | service-worker.js:14 | opening keeps every existing cache in place and appends an empty cache of that name only when the name is new |
| `CacheStore.Put` | service-worker.js:14 | adding a batch keeps every cache name in place (`FindPut` gives the contents) |
| `CacheStore.Delete` | service-worker.js:20 | `delete(k)` removes exactly the caches named `k` and keeps every other cache |
| `CacheStore.Sweep` | service-worker.js:20 | the activated store holds exactly the caches of the old store named `poke-rand-v1` (`SweepKeepsOnlyCurrent` adds that its contents are unchanged) |
| `CacheStore.OpenPutKeepDistinct` | service-worker.js:14 | opening and adding keep the cache names distinct |
| `CacheStore.EvictKeepsDistinct` | service-worker.js:20 | deleting caches keeps the remaining names distinct |
| `CacheStore.FindOpen` | service-worker.js:14 | opening creates an empty cache only when the name is new, and changes no other cache |
| `CacheStore.FindPut` | service-worker.js:14 | adding the batch extends the named cache and leaves every other cache as it was |
| `AssetWorker.Installed` | service-worker.js:12-16 | install opens (creates) `poke-rand-v1`. It adds all asset entries when every fetch gave a storable response and none otherwise. No other cache changes |
| `AssetWorker.FreshInstallHoldsExactlyAssets` | service-worker.js:2-16 | a successful first install leaves `poke-rand-v1` with exactly the 7 asset URLs, each with its fetched response |
| `AssetWorker.Worker.constructor` | service-worker.js:12-22 | the worker starts on a store whose cache names are distinct |
| `AssetWorker.Worker.Install` | service-worker.js:12-16 | reports success exactly when every asset response is storable, leaves the store equal to `Installed` of the old store, and keeps the names distinct |
| `AssetWorker.Worker.Activate` | service-worker.js:18-22 | deleting each non-current name in turn leaves the store equal to the sweep of the old store, with the names still distinct |
| `CacheStore.EvictTwice` | service-worker.js:20 | deleting names one batch after another is the same as deleting them all at once |
| `CacheStore.EvictOthers` | service-worker.js:20 | deleting every name other than the current one leaves exactly the current caches |
| `CacheStore.SweepKeepsOnlyCurrent` | service-worker.js:20 | after activation only `poke-rand-v1` is left, and its contents are unchanged |
| `CacheStore.SweepIdempotent` | service-worker.js:20 | a second activation deletes nothing |
| `AssetWorker.InstalledHoldsEntryPage` | service-worker.js:4 | after a successful install every `poke-rand-v1` cache holds `/index.html` with the response fetched for it |
| `AssetWorker.FallbackAvailableAfterActivation` | service-worker.js:18-22 | after a successful install and activation, the lookup of the fallback page finds the page fetched at install |
| `CacheStore.Match` | service-worker.js:30 | the lookup fails exactly when no cache holds the URL. Otherwise it returns the entry of the oldest cache holding that URL |
| `AssetWorker.RouteOf` | service-worker.js:27-41 | cache-first exactly for GET, non-document, URL starting with the origin. Network-first with `/index.html` exactly for other navigations. Pass-through otherwise |
| `AssetWorker.FrameNavigationIsCacheFirst` | service-worker.js:28-36 | the cache-first test comes first: a same-origin iframe navigation is served cache-first, and a document navigation network-first |
| `AssetWorker.PrefixTestAdmitsLongerHost` | service-worker.js:28 | the origin test is a string prefix, so a URL on a longer host name (`https://poke.example.net/...` for origin `https://poke.example`) is routed cache-first |
| `AssetWorker.CacheFirstReply` | service-worker.js:30 | the cached entry when there is one, else the network response; a network error exactly when both are missing |
| `AssetWorker.NetworkFirstReply` | service-worker.js:38 | any network response wins; the fallback is served only when the fetch fails, and a network error exactly when the fallback is missing too |
| `AssetWorker.HandleFetch` | service-worker.js:24-42 | pass-through exactly when no rule matches. Cache-first serves the cached entry, else the network response, else a network error. Network-first serves any network response, and the cached fallback only when the fetch fails |
| `AssetWorker.CacheHitIgnoresNetwork` | service-worker.js:30 | on a cache hit the reply is the cached entry whatever the network would do |
| `AssetWorker.OfflineNavigationServesEntryPage` | service-worker.js:36-39 | after a successful install and activation, an offline document navigation gets the entry page fetched at install |

## Left out

- Network I/O and JSON decoding (`fetchPokemon`, `fetchSpecies`, app.js:14-24) are
  replaced by `Fetched` inputs. A non-2xx status, a rejected fetch and a bad body
  are all `Failed`. The request URLs appear only as `ApiRequest` values.
- A name entry that is itself `null` makes `find` throw inside the trial, so the
  trial counts as failed. The model assumes entries are objects.
- Quiz.RandomId: computes `floor(r * 1010) + 1` in exact real arithmetic; the
  rounding of the floating-point product is not modelled.
- DOM event wiring, the initial `loadRandomPokemon()` call and worker registration
  (app.js:88-105) are left out. The keyboard filter is `KeyDown`, and a click calls
  `RevealOrNext` directly.
- Overlapping asynchronous calls of `revealOrNext`/`loadRandomPokemon` are left
  out. Each call is one atomic step, so the race between overlapping rounds is not
  modelled.
- `waitUntil`/`respondWith` promise plumbing and the browser's worker lifecycle are
  left out. The browser discarding a worker whose install failed is one example.
  The model shows only what install leaves in Cache Storage: the opened cache, with
  or without the assets.
- `caches.match` is modelled as matching on the URL alone. Method, `Vary` headers
  and query options are not modelled. A repeated URL in `addAll` is excluded by
  `Entries`' precondition; the seven asset URLs are distinct.
- `tools/update_icons.py` (icon download and resizing) is not part of this model.
