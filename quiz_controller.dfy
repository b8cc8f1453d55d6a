/** The quiz page's mutable state: the module-level `state` object and the
    fields of the sprite and name elements, with the two operations that
    update them in place and the keyboard filter in front of them. */
module QuizController {
  import opened Wrappers
  import opened Quiz

  class Controller {
    var currentId: Option<int>
    var revealed: bool
    /** The sprite element's `src` attribute; `None` once removed. */
    var spriteSrc: Option<string>
    var spriteAlt: string
    var nameText: string
    /** The name element's `aria-hidden` attribute. */
    var nameHidden: bool

    /** The card as a value. */
    function View(): Card
      reads this
    {
      Card(currentId, revealed, spriteSrc, spriteAlt, nameText, nameHidden)
    }

    ghost predicate Valid()
      reads this
    {
      Consistent(View())
    }

    /** The state before the first round: `currentId` null and nothing
        revealed, as the script's `state` object starts. The element fields
        (an empty hidden name, an image without a source or alt text) stand
        for what the first `loadRandomPokemon()` call's synchronous reset
        leaves before its first fetch. */
    constructor ()
      ensures Valid()
      ensures View() == Card(None, false, None, "", "", true)
    {
      currentId := None;
      revealed := false;
      spriteSrc := None;
      spriteAlt := "";
      nameText := "";
      nameHidden := true;
    }

    /** One round: reset the name, then up to five trials, each drawing an
        id and fetching its creature record, skipping to the next trial when
        there is no sprite or a fetch fails, and committing id and sprite on
        the first trial whose species fetch succeeds; after five failures the
        sprite shows the failure text. */
    method LoadRandomPokemon(trials: seq<Trial>) returns (requests: seq<ApiRequest>)
      requires Valid() && ValidTrials(trials)
      modifies this
      ensures View() == AfterLoad(old(View()), trials)
      ensures requests == RoundRequests(trials)
      ensures Valid()
    {
      ghost var before := View();
      revealed := false;
      nameText := "";
      nameHidden := true;
      requests := [];

      for tries := 0 to MaxTries
        invariant forall j | 0 <= j < tries :: !Attempt(trials[j]).Found?
        invariant requests == RequestsOf(trials[..tries])
        invariant View() == before.(revealed := false, nameText := "", nameHidden := true)
      {
        var t := trials[tries];
        assert trials[..tries + 1][..tries] == trials[..tries];
        var id := RandomId(t.draw);
        requests := requests + [CreatureById(id)];
        if t.creature.Failed? {
          continue;
        }
        var sprite := SelectSprite(t.creature.value);
        if sprite.None? {
          continue;
        }
        requests := requests + [SpeciesById(Some(id))];
        if t.species.Failed? {
          continue;
        }
        var kana := KanaName(t.species.value);
        currentId := Some(id);
        spriteSrc := sprite;
        spriteAlt := AltText(kana);
        assert FirstFound(trials) == tries;
        ToggleKeepsConsistent(before, Failed, trials);
        return;
      }

      assert trials[..MaxTries] == trials;
      spriteSrc := None;
      spriteAlt := FailureAlt;
      ToggleKeepsConsistent(before, Failed, trials);
    }

    /** The reveal/next toggle. Hidden: fetch the species record of
        `currentId` again and show its kana name, or the fixed failure text,
        and mark the card revealed. Revealed: run a new round. */
    method RevealOrNext(species: Fetched<Species>, trials: seq<Trial>) returns (requests: seq<ApiRequest>)
      requires Valid() && ValidTrials(trials)
      modifies this
      ensures View() == AfterToggle(old(View()), species, trials)
      ensures requests == if old(revealed) then RoundRequests(trials) else [SpeciesById(old(currentId))]
      ensures Valid()
    {
      if !revealed {
        requests := [SpeciesById(currentId)];
        match species
        case Loaded(sp) =>
          nameText := KanaName(sp);
          nameHidden := false;
          revealed := true;
        case Failed =>
          nameText := NameFailure;
          nameHidden := false;
          revealed := true;
      } else {
        requests := LoadRandomPokemon(trials);
      }
    }

    /** The keydown handler: only Enter and Space activate the toggle. */
    method KeyDown(key: string, species: Fetched<Species>, trials: seq<Trial>)
      returns (activated: bool, requests: seq<ApiRequest>)
      requires Valid() && ValidTrials(trials)
      modifies this
      ensures activated <==> key == "Enter" || key == " "
      ensures activated ==> View() == AfterToggle(old(View()), species, trials)
      ensures activated ==> requests == if old(revealed) then RoundRequests(trials) else [SpeciesById(old(currentId))]
      ensures !activated ==> View() == old(View()) && requests == []
      ensures Valid()
    {
      activated := key == "Enter" || key == " ";
      if activated {
        requests := RevealOrNext(species, trials);
      } else {
        requests := [];
      }
    }
  }
}
