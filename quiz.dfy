/** The pure part of the quiz page script: the random id, the choice of
    sprite, the kana-name lookup, and a specification of one round and of
    the reveal/next toggle as functions on the visible state of the card. */
module Quiz {
  import opened Wrappers

  /** Highest creature id the page draws from. */
  const MaxId: int := 1010
  /** Number of trials one round makes before giving up. */
  const MaxTries: nat := 5
  /** Language tag of the kana (hiragana/katakana) name entry. */
  const KanaTag: string := "ja-Hrkt"
  /** Alt text of the sprite when every trial failed. */
  const FailureAlt: string := "画像を取得できませんでした"
  /** Name text shown when the reveal could not fetch the species record. */
  const NameFailure: string := "名前取得に失敗"

  // ---------------------------------------------------------------------
  // Random id

  /** A value of `Math.random()`: a number in [0, 1). */
  predicate IsDraw(r: real) { 0.0 <= r < 1.0 }

  /** `floor(r * MaxId) + 1`, computed exactly (no floating-point rounding). */
  function RandomId(r: real): (id: int)
    requires IsDraw(r)
    ensures 1 <= id <= MaxId
  {
    (r * MaxId as real).Floor + 1
  }

  /** Each id owns a slice of the draws of width 1/MaxId, so a uniform draw
      gives a uniform id. */
  lemma RandomIdSlice(r: real, id: int)
    requires IsDraw(r) && 1 <= id <= MaxId
    ensures RandomId(r) == id <==> (id - 1) as real / MaxId as real <= r < id as real / MaxId as real
  {
  }

  // ---------------------------------------------------------------------
  // Records as far as the page reads them

  /** One entry of `names` in a species record: `language.name` and `name`,
      each possibly absent. */
  datatype NameEntry = NameEntry(language: Option<string>, name: Option<string>)

  /** A species record: its canonical `name` and its optional `names` list. */
  datatype Species = Species(name: string, names: Option<seq<NameEntry>>)

  /** The two sprite URLs of a creature record, `None` when the field (or any
      object on the way to it) is absent. */
  datatype Creature = Creature(artwork: Option<string>, frontDefault: Option<string>)

  /** JavaScript truthiness of an optional string. */
  predicate Truthy(s: Option<string>) { s.Some? && s.value != "" }

  predicate IsKana(e: NameEntry) { e.language == Some(KanaTag) }

  /** Index of the first kana entry (`Array.prototype.find`), or `|ns|`. */
  function FirstKana(ns: seq<NameEntry>): (i: nat)
    ensures i <= |ns|
    ensures forall j | 0 <= j < i :: !IsKana(ns[j])
    ensures i < |ns| ==> IsKana(ns[i])
  {
    if ns == [] then 0
    else if IsKana(ns[0]) then 0
    else 1 + FirstKana(ns[1..])
  }

  /** `entry?.name || fallback` for one name entry. */
  function NameOr(e: NameEntry, fallback: string): string {
    if Truthy(e.name) then e.name.value else fallback
  }

  /** The name the card shows: the first kana entry's name when it is
      non-empty, the canonical name otherwise. */
  function KanaName(sp: Species): (r: string)
    ensures sp.names.None? ==> r == sp.name
    ensures sp.names.Some? && (forall j | 0 <= j < |sp.names.value| :: !IsKana(sp.names.value[j])) ==> r == sp.name
    ensures sp.names.Some? ==>
              forall i | 0 <= i < |sp.names.value| && IsKana(sp.names.value[i]) &&
                         (forall j | 0 <= j < i :: !IsKana(sp.names.value[j])) ::
                r == NameOr(sp.names.value[i], sp.name)
  {
    match sp.names
    case None => sp.name
    case Some(ns) =>
      var i := FirstKana(ns);
      if i < |ns| then NameOr(ns[i], sp.name) else sp.name
  }

  /** The lookup never looks past the first kana entry: whatever follows it
      can be replaced without changing the name. */
  lemma KanaIgnoresLaterEntries(sp: Species, k: nat, later: seq<NameEntry>)
    requires sp.names.Some? && k < |sp.names.value| && IsKana(sp.names.value[k])
    ensures KanaName(sp.(names := Some(sp.names.value[..k + 1] + later))) == KanaName(sp)
  {
    var ns := sp.names.value;
    var ms := ns[..k + 1] + later;
    var i := FirstKana(ns);
    assert i <= k;
    assert forall j | 0 <= j <= k :: ms[j] == ns[j];
  }

  /** The sprite: the official artwork if truthy, else the front sprite if
      truthy, else none. */
  function SelectSprite(c: Creature): (s: Option<string>)
    ensures s.Some? <==> Truthy(c.artwork) || Truthy(c.frontDefault)
    ensures s.Some? ==> s.value != "" && (s == c.artwork || s == c.frontDefault)
    ensures Truthy(c.artwork) ==> s == c.artwork
  {
    if Truthy(c.artwork) then c.artwork
    else if Truthy(c.frontDefault) then c.frontDefault
    else None
  }

  const AltPrefix: string := "ランダムなポケモン ("

  /** Alt text of a loaded sprite: the kana name in parentheses after a
      fixed prefix. */
  function AltText(kana: string): (alt: string)
    ensures |alt| == |AltPrefix| + |kana| + 1
    ensures alt[..|AltPrefix|] == AltPrefix && alt[|AltPrefix|..|AltPrefix| + |kana|] == kana
  {
    AltPrefix + kana + ")"
  }

  /** The alt text ends with the closing parenthesis. */
  lemma AltTextCloses(kana: string)
    ensures AltText(kana)[|AltText(kana)| - 1] == ')'
  {
  }

  // ---------------------------------------------------------------------
  // One round

  /** What the environment does in one trial: the draw, the result of the
      creature fetch and the result the species fetch would give. */
  datatype Trial = Trial(draw: real, creature: Fetched<Creature>, species: Fetched<Species>)

  /** A request to the data service. The species id is optional because the
      reveal interpolates `currentId`, which is `null` before any success. */
  datatype ApiRequest = CreatureById(id: int) | SpeciesById(speciesId: Option<int>)

  datatype TrialResult = FetchFailed | NoSprite | Found(id: int, sprite: string, kana: string)

  predicate DrawsValid(ts: seq<Trial>) { forall i | 0 <= i < |ts| :: IsDraw(ts[i].draw) }

  /** The outcomes of all the trials a round may make. */
  predicate ValidTrials(ts: seq<Trial>) { |ts| == MaxTries && DrawsValid(ts) }

  function Attempt(t: Trial): (r: TrialResult)
    requires IsDraw(t.draw)
    ensures r.Found? <==> t.creature.Loaded? && SelectSprite(t.creature.value).Some? && t.species.Loaded?
    ensures r == NoSprite <==> t.creature.Loaded? && SelectSprite(t.creature.value).None?
    ensures r.Found? ==>
              1 <= r.id <= MaxId && r.id == RandomId(t.draw) &&
              Some(r.sprite) == SelectSprite(t.creature.value) && r.kana == KanaName(t.species.value)
  {
    match t.creature
    case Failed => FetchFailed
    case Loaded(c) =>
      match SelectSprite(c)
      case None => NoSprite
      case Some(sprite) =>
        match t.species
        case Failed => FetchFailed
        case Loaded(sp) => Found(RandomId(t.draw), sprite, KanaName(sp))
  }

  /** The requests one trial issues: the creature record, then the species
      record only when a sprite was found. */
  function TrialRequests(t: Trial): (rs: seq<ApiRequest>)
    requires IsDraw(t.draw)
    ensures 1 <= |rs| <= 2 && rs[0] == CreatureById(RandomId(t.draw))
    ensures |rs| == 2 <==> t.creature.Loaded? && Attempt(t) != NoSprite
    ensures |rs| == 2 ==> rs[1] == SpeciesById(Some(RandomId(t.draw)))
  {
    var id := RandomId(t.draw);
    if t.creature.Loaded? && SelectSprite(t.creature.value).Some?
    then [CreatureById(id), SpeciesById(Some(id))]
    else [CreatureById(id)]
  }

  /** Index of the first successful trial, or `|ts|` when none succeeds. */
  function FirstFound(ts: seq<Trial>): (k: nat)
    requires DrawsValid(ts)
    ensures k <= |ts|
    ensures forall j | 0 <= j < k :: !Attempt(ts[j]).Found?
    ensures k < |ts| ==> Attempt(ts[k]).Found?
  {
    if ts == [] then 0
    else if Attempt(ts[0]).Found? then 0
    else 1 + FirstFound(ts[1..])
  }

  /** Number of trials a round actually runs. */
  function TrialsRun(ts: seq<Trial>): nat
    requires DrawsValid(ts)
  {
    if FirstFound(ts) < |ts| then FirstFound(ts) + 1 else |ts|
  }

  /** The requests of the trials `ts`, in order. */
  function RequestsOf(ts: seq<Trial>): seq<ApiRequest>
    requires DrawsValid(ts)
  {
    if ts == [] then [] else RequestsOf(ts[..|ts| - 1]) + TrialRequests(ts[|ts| - 1])
  }

  /** The requests one round issues. */
  function RoundRequests(ts: seq<Trial>): seq<ApiRequest>
    requires ValidTrials(ts)
  {
    RequestsOf(ts[..TrialsRun(ts)])
  }

  function CreatureFetches(rs: seq<ApiRequest>): nat {
    if rs == [] then 0 else CreatureFetches(rs[..|rs| - 1]) + (if rs[|rs| - 1].CreatureById? then 1 else 0)
  }

  lemma {:induction false} CreatureFetchesAppend(a: seq<ApiRequest>, b: seq<ApiRequest>)
    ensures CreatureFetches(a + b) == CreatureFetches(a) + CreatureFetches(b)
  {
    if b != [] {
      assert (a + b)[..|a + b| - 1] == a + b[..|b| - 1];
      CreatureFetchesAppend(a, b[..|b| - 1]);
    } else {
      assert a + b == a;
    }
  }

  lemma {:induction false} RequestsOfCreatureFetches(ts: seq<Trial>)
    requires DrawsValid(ts)
    ensures CreatureFetches(RequestsOf(ts)) == |ts|
  {
    if ts != [] {
      var last := ts[|ts| - 1];
      RequestsOfCreatureFetches(ts[..|ts| - 1]);
      CreatureFetchesAppend(RequestsOf(ts[..|ts| - 1]), TrialRequests(last));
      var tr := TrialRequests(last);
      if |tr| == 2 {
        assert tr[..1] == [CreatureById(RandomId(last.draw))];
        assert tr[..1][..0] == [];
        assert CreatureFetches(tr[..1]) == 1;
        assert CreatureFetches(tr) == 1;
      } else {
        assert tr[..0] == [];
        assert CreatureFetches(tr) == 1;
      }
    }
  }

  /** A round fetches one creature record per trial it runs, never more than
      five, and it stops after the first trial that succeeds. */
  lemma RoundIsBounded(ts: seq<Trial>)
    requires ValidTrials(ts)
    ensures CreatureFetches(RoundRequests(ts)) == TrialsRun(ts) <= MaxTries
    ensures TrialsRun(ts) < MaxTries ==> Attempt(ts[TrialsRun(ts) - 1]).Found?
    ensures forall j | 0 <= j < TrialsRun(ts) - 1 :: !Attempt(ts[j]).Found?
  {
    RequestsOfCreatureFetches(ts[..TrialsRun(ts)]);
  }

  /** When no trial yields a sprite, the round runs all five trials and asks
      for no species record at all. */
  lemma {:induction false} NoSpriteNoSpeciesFetch(ts: seq<Trial>)
    requires DrawsValid(ts)
    requires forall j | 0 <= j < |ts| :: ts[j].creature.Failed? || SelectSprite(ts[j].creature.value).None?
    ensures forall r | r in RequestsOf(ts) :: r.CreatureById?
  {
    if ts != [] {
      NoSpriteNoSpeciesFetch(ts[..|ts| - 1]);
    }
  }

  lemma AllFailingRoundRunsFiveTrials(ts: seq<Trial>)
    requires ValidTrials(ts)
    requires forall j | 0 <= j < |ts| :: ts[j].creature.Failed? || SelectSprite(ts[j].creature.value).None?
    ensures TrialsRun(ts) == MaxTries
    ensures forall r | r in RoundRequests(ts) :: r.CreatureById?
    ensures CreatureFetches(RoundRequests(ts)) == MaxTries
  {
    assert ts[..MaxTries] == ts;
    NoSpriteNoSpeciesFetch(ts);
    RoundIsBounded(ts);
  }

  // ---------------------------------------------------------------------
  // The card and its two transitions

  /** What the page shows and remembers: `state.currentId`, `state.revealed`,
      the sprite's `src` (absent after `removeAttribute`) and `alt`, and the
      name element's text and `aria-hidden` flag. */
  datatype Card = Card(currentId: Option<int>, revealed: bool, spriteSrc: Option<string>,
                       spriteAlt: string, nameText: string, nameHidden: bool)

  /** The card's invariant: the id, when set, is a drawable id; the name is
      visible exactly when revealed; and a hidden name is empty. */
  predicate Consistent(c: Card) {
    (c.currentId.Some? ==> 1 <= c.currentId.value <= MaxId) &&
    c.nameHidden == !c.revealed &&
    (!c.revealed ==> c.nameText == "")
  }

  /** The card after a round: the name is reset and hidden; the first trial
      that succeeds sets id and sprite; if none does, the sprite shows the
      failure text and the id is kept. */
  function AfterLoad(c: Card, ts: seq<Trial>): (d: Card)
    requires ValidTrials(ts)
    ensures !d.revealed && d.nameText == "" && d.nameHidden
    ensures forall k | 0 <= k < |ts| && Attempt(ts[k]).Found? && (forall j | 0 <= j < k :: !Attempt(ts[j]).Found?) ::
              d.currentId == Some(Attempt(ts[k]).id) && d.spriteSrc == Some(Attempt(ts[k]).sprite) &&
              d.spriteAlt == AltText(Attempt(ts[k]).kana)
    ensures (forall j | 0 <= j < |ts| :: !Attempt(ts[j]).Found?) ==>
              d.currentId == c.currentId && d.spriteSrc == None && d.spriteAlt == FailureAlt
  {
    var reset := c.(revealed := false, nameText := "", nameHidden := true);
    var k := FirstFound(ts);
    if k < |ts| then
      var t := Attempt(ts[k]);
      reset.(currentId := Some(t.id), spriteSrc := Some(t.sprite), spriteAlt := AltText(t.kana))
    else
      reset.(spriteSrc := None, spriteAlt := FailureAlt)
  }

  /** The card after a reveal, given what the species fetch gave. */
  function AfterReveal(c: Card, species: Fetched<Species>): (d: Card)
    ensures d.revealed && !d.nameHidden
    ensures species.Failed? ==> d.nameText == NameFailure
    ensures d.(revealed := c.revealed, nameText := c.nameText, nameHidden := c.nameHidden) == c
  {
    var text := if species.Loaded? then KanaName(species.value) else NameFailure;
    c.(nameText := text, nameHidden := false, revealed := true)
  }

  /** The card after one activation: reveal when hidden, a new round when
      revealed. */
  function AfterToggle(c: Card, species: Fetched<Species>, ts: seq<Trial>): (d: Card)
    requires ValidTrials(ts)
    ensures d.revealed == !c.revealed
    ensures d.nameHidden == !d.revealed
  {
    if c.revealed then AfterLoad(c, ts) else AfterReveal(c, species)
  }

  /** From hidden, an activation always reveals: the name becomes visible
      and shows the kana name, or the fixed failure text when the fetch
      fails; sprite and id stay as they were. */
  lemma RevealFromHidden(c: Card, species: Fetched<Species>, ts: seq<Trial>)
    requires ValidTrials(ts) && !c.revealed
    ensures var d := AfterToggle(c, species, ts);
      d.revealed && !d.nameHidden &&
      d.nameText == (if species.Loaded? then KanaName(species.value) else NameFailure) &&
      d.currentId == c.currentId && d.spriteSrc == c.spriteSrc && d.spriteAlt == c.spriteAlt
  {
  }

  /** From revealed, an activation starts a new round, which hides the name
      again. */
  lemma NextFromRevealed(c: Card, species: Fetched<Species>, ts: seq<Trial>)
    requires ValidTrials(ts) && c.revealed
    ensures AfterToggle(c, species, ts) == AfterLoad(c, ts)
    ensures !AfterToggle(c, species, ts).revealed && AfterToggle(c, species, ts).nameHidden
  {
  }

  /** Two activations from hidden never reveal twice: the second one starts
      a new round. */
  lemma NoDoubleReveal(c: Card, s1: Fetched<Species>, s2: Fetched<Species>, t1: seq<Trial>, t2: seq<Trial>)
    requires ValidTrials(t1) && ValidTrials(t2) && !c.revealed
    ensures AfterToggle(c, s1, t1).revealed
    ensures AfterToggle(AfterToggle(c, s1, t1), s2, t2) == AfterLoad(AfterReveal(c, s1), t2)
    ensures !AfterToggle(AfterToggle(c, s1, t1), s2, t2).revealed
  {
  }

  /** Loading and toggling keep the card consistent. */
  lemma ToggleKeepsConsistent(c: Card, species: Fetched<Species>, ts: seq<Trial>)
    requires ValidTrials(ts) && Consistent(c)
    ensures Consistent(AfterLoad(c, ts))
    ensures Consistent(AfterToggle(c, species, ts))
  {
  }

  /** A failed creature fetch, a record without a sprite and a failed species
      fetch are all treated alike: two rounds whose trials agree on every
      success end in the same card. */
  lemma FailuresAreInterchangeable(c: Card, a: seq<Trial>, b: seq<Trial>)
    requires ValidTrials(a) && ValidTrials(b)
    requires forall j | 0 <= j < MaxTries :: Attempt(a[j]).Found? || Attempt(b[j]).Found? ==> Attempt(a[j]) == Attempt(b[j])
    ensures AfterLoad(c, a) == AfterLoad(c, b)
  {
  }
}
