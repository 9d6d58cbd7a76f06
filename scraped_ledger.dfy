/** The scraped-videos ledger (`get_scraped_videos`, `save_scraped_video`):
    a grow-only set of video ids kept as a JSON list in one file, replaced
    atomically on every save. The file and its temporary sibling are two
    slots of the `Ledger` object; whether a step of the save raises is the
    parameter `fault`. */
module ScrapedLedger {

  /** What a slot holds: no file, a file that cannot be read or does not
      hold a JSON list, or a JSON list of ids. */
  datatype Persisted = Missing | Malformed | IdList(ids: seq<string>)

  /** The step of a save that raises, if any. `TempWriteFails` is
      `json.dump` raising after `open` has truncated the temporary file; an
      `open` of the temporary file that raises leaves both slots as they
      were, which `MkdirFails` already describes. */
  datatype SaveFault = NoFault | MkdirFails | TempWriteFails | ReplaceFails

  /** What loading a slot yields: the list's elements, or the empty set for
      a missing, unreadable or non-list file. */
  function LoadedIds(p: Persisted): (s: set<string>)
    ensures !p.IdList? ==> s == {}
    ensures p.IdList? ==> forall x :: x in s <==> x in p.ids
  {
    if p.IdList? then set x | x in p.ids else {}
  }

  predicate NoDuplicates(xs: seq<string>) {
    forall i, j :: 0 <= i < j < |xs| ==> xs[i] != xs[j]
  }

  /** `list(s)`: the elements of a set, each once, in an order the model
      leaves open (Python's follows string hashes). */
  method SetToList(s: set<string>) returns (xs: seq<string>)
    ensures NoDuplicates(xs)
    ensures forall x :: x in xs <==> x in s
  {
    xs := [];
    var rest := s;
    while rest != {}
      invariant NoDuplicates(xs)
      invariant forall x :: x in xs ==> x in s && x !in rest
      invariant forall x :: x in s ==> x in xs || x in rest
      invariant rest <= s
      decreases rest
    {
      var x :| x in rest;
      xs := xs + [x];
      rest := rest - {x};
    }
  }

  class Ledger {
    /** `data/scraped_videos.json` */
    var persisted: Persisted
    /** `data/scraped_videos.json.tmp` */
    var temp: Persisted

    constructor (initial: Persisted)
      ensures persisted == initial && temp == Missing
    {
      persisted := initial;
      temp := Missing;
    }

    /** The set a load would return now. */
    function Ids(): set<string>
      reads this
    {
      LoadedIds(persisted)
    }

    method GetScrapedVideos() returns (ids: set<string>)
      ensures !persisted.IdList? ==> ids == {}
      ensures persisted.IdList? ==> forall x :: x in ids <==> x in persisted.ids
      ensures ids == Ids()
    {
      match persisted
      case Missing => ids := {};
      case Malformed => ids := {};
      case IdList(list) => ids := set x | x in list;
    }

    /** Load, add, write the temporary file, then replace the ledger file
        with it in one step. A failing step is swallowed: the ledger file is
        then untouched. */
    method SaveScrapedVideo(id: string, fault: SaveFault)
      modifies this
      ensures fault == NoFault ==> persisted.IdList? && NoDuplicates(persisted.ids) && temp == Missing
      ensures fault == NoFault ==> Ids() == old(Ids()) + {id}
      ensures fault != NoFault ==> persisted == old(persisted)
      ensures fault == MkdirFails ==> temp == old(temp)
      ensures fault == TempWriteFails ==> temp == Malformed
      ensures fault == ReplaceFails ==> temp.IdList? && LoadedIds(temp) == old(Ids()) + {id}
    {
      var scraped := GetScrapedVideos();
      scraped := scraped + {id};
      if fault == MkdirFails {
        return;
      }
      if fault == TempWriteFails {
        // `json.dump` raised part-way: the temporary file is left truncated
        temp := Malformed;
        return;
      }
      var listed := SetToList(scraped);
      temp := IdList(listed);
      if fault == ReplaceFails {
        return;
      }
      persisted := temp;
      temp := Missing;
    }
  }
}
