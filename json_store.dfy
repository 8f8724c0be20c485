/**
  The de-duplicating vacancy store: one JSON array in a file, read whole and
  rewritten whole. A record is a dict; its `link` entry identifies it.
*/
module JsonStore {
  import opened PyValues
  import Seqs

  /** `v["link"] == link`, for a record that has a link. */
  predicate LinkIs(v: Record, link: Value) {
    "link" in v && v["link"] == link
  }

  /** Every record carries a `link` entry, so `v["link"]` cannot raise. */
  predicate AllLinked(vs: seq<Record>) {
    forall i :: 0 <= i < |vs| ==> "link" in vs[i]
  }

  /** `any(v["link"] == link for v in vs)`. */
  predicate HasLink(vs: seq<Record>, link: Value) {
    exists i :: 0 <= i < |vs| && LinkIs(vs[i], link)
  }

  /** No two records share a link. */
  predicate DistinctLinks(vs: seq<Record>) {
    forall i, j :: 0 <= i < j < |vs| && "link" in vs[i] && "link" in vs[j] ==> vs[i]["link"] != vs[j]["link"]
  }

  /** The list `add_vacancy` writes back: the new record goes last unless its link is already stored. */
  function WithAdded(vs: seq<Record>, vacancy: Record): (r: seq<Record>)
    requires "link" in vacancy
    ensures HasLink(r, vacancy["link"])
    ensures r == vs <==> HasLink(vs, vacancy["link"])
    ensures r != vs ==> r == vs + [vacancy]
  {
    assert LinkIs((vs + [vacancy])[|vs|], vacancy["link"]);
    if HasLink(vs, vacancy["link"]) then vs else vs + [vacancy]
  }

  /** Afterwards the link is always present, and adding again changes nothing. */
  lemma AddedIsPresent(vs: seq<Record>, vacancy: Record)
    requires "link" in vacancy
    ensures HasLink(WithAdded(vs, vacancy), vacancy["link"])
    ensures WithAdded(WithAdded(vs, vacancy), vacancy) == WithAdded(vs, vacancy)
    ensures |WithAdded(vs, vacancy)| <= |vs| + 1
    ensures vs <= WithAdded(vs, vacancy)
  {
    var r := WithAdded(vs, vacancy);
    if !HasLink(vs, vacancy["link"]) {
      assert LinkIs(r[|vs|], vacancy["link"]);
    }
  }

  /** Adding keeps links pairwise distinct. */
  lemma AddedKeepsLinksDistinct(vs: seq<Record>, vacancy: Record)
    requires "link" in vacancy && AllLinked(vs) && DistinctLinks(vs)
    ensures AllLinked(WithAdded(vs, vacancy)) && DistinctLinks(WithAdded(vs, vacancy))
  {
    var r := WithAdded(vs, vacancy);
    if !HasLink(vs, vacancy["link"]) {
      forall i, j | 0 <= i < j < |r|
        ensures r[i]["link"] != r[j]["link"]
      {
        if j == |vs| {
          assert !LinkIs(vs[i], vacancy["link"]);
        }
      }
    }
  }

  /** The test `delete_vacancy` keeps a record by. */
  function LinkDiffers(link: Value): Record -> bool {
    (v: Record) => !LinkIs(v, link)
  }

  /** `[v for v in vs if v["link"] != link]`. */
  function WithoutLink(vs: seq<Record>, link: Value): (r: seq<Record>)
    ensures forall v :: v in r <==> v in vs && !LinkIs(v, link)
    ensures forall v :: multiset(r)[v] == if LinkIs(v, link) then 0 else multiset(vs)[v]
    ensures !HasLink(r, link)
    ensures Seqs.IsSubsequence(r, vs)
  {
    Seqs.FilterIsSubsequence(vs, LinkDiffers(link));
    Seqs.FilterCounts(vs, LinkDiffers(link));
    Seqs.Filter(vs, LinkDiffers(link))
  }

  /** Deleting twice is deleting once. */
  lemma DeleteIdempotent(vs: seq<Record>, link: Value)
    ensures WithoutLink(WithoutLink(vs, link), link) == WithoutLink(vs, link)
  {
    Seqs.FilterIdempotent(vs, LinkDiffers(link));
  }

  /** Deleting a link that is not stored changes nothing. */
  lemma DeleteAbsent(vs: seq<Record>, link: Value)
    requires !HasLink(vs, link)
    ensures WithoutLink(vs, link) == vs
  {
    Seqs.FilterKeepsAll(vs, LinkDiffers(link));
  }

  /** The stored file: a JSON array of records, or something unreadable. */
  class JsonFileHandler {
    /** The records in the file, when it holds a valid JSON array. */
    var records: seq<Record>
    /** False when the file is missing or is not valid JSON. */
    var readable: bool

    ghost predicate Valid()
      reads this
    {
      AllLinked(records)
    }

    /** What `get_vacancies` returns: the records, or nothing for an unreadable file. */
    function Contents(): (vs: seq<Record>)
      reads this
      ensures !readable ==> vs == []
      ensures Valid() ==> AllLinked(vs)
    {
      if readable then records else []
    }

    constructor (records: seq<Record>, readable: bool)
      requires AllLinked(records)
      ensures Valid() && this.records == records && this.readable == readable
    {
      this.records := records;
      this.readable := readable;
    }

    /** `get_vacancies`: the array, or `[]` when the file is missing or not JSON. */
    method GetVacancies() returns (vs: seq<Record>)
      requires Valid()
      ensures readable ==> vs == records
      ensures !readable ==> vs == []
      ensures AllLinked(vs)
    {
      if readable {
        vs := records;
      } else {
        vs := [];
      }
    }

    /** `_save_vacancies`: rewrite the whole file; a failed write is caught and changes nothing. */
    method SaveVacancies(vs: seq<Record>, writeOk: bool)
      requires Valid() && AllLinked(vs)
      modifies this
      ensures Valid()
      ensures writeOk ==> readable && records == vs
      ensures !writeOk ==> readable == old(readable) && records == old(records)
    {
      if writeOk {
        records := vs;
        readable := true;
      }
    }

    /**
      `add_vacancy`: read, append unless the link is already stored, write
      back. An unreadable file reads as empty, so a successful write replaces
      it with the one new record.
    */
    method AddVacancy(vacancy: Record, writeOk: bool)
      requires Valid() && "link" in vacancy
      modifies this
      ensures Valid()
      ensures HasLink(old(Contents()), vacancy["link"]) || !writeOk ==>
                readable == old(readable) && records == old(records)
      ensures !HasLink(old(Contents()), vacancy["link"]) && writeOk ==>
                readable && records == old(Contents()) + [vacancy]
      ensures writeOk ==> Contents() == WithAdded(old(Contents()), vacancy)
      ensures writeOk && !old(readable) ==> records == [vacancy]
      ensures writeOk && old(DistinctLinks(Contents())) ==> DistinctLinks(Contents())
    {
      if DistinctLinks(Contents()) {
        AddedKeepsLinksDistinct(Contents(), vacancy);
      }
      var vacancies := GetVacancies();
      if !HasLink(vacancies, vacancy["link"]) {
        vacancies := vacancies + [vacancy];
        SaveVacancies(vacancies, writeOk);
      }
    }

    /**
      `delete_vacancy`: read, drop every record with the argument's link
      (nothing else of the argument is compared), write back.
    */
    method DeleteVacancy(vacancy: Record, writeOk: bool)
      requires Valid() && "link" in vacancy
      modifies this
      ensures Valid()
      ensures writeOk ==> readable && records == WithoutLink(old(Contents()), vacancy["link"])
      ensures writeOk ==> !HasLink(Contents(), vacancy["link"])
      ensures !writeOk ==> readable == old(readable) && records == old(records)
    {
      var vacancies := GetVacancies();
      vacancies := WithoutLink(vacancies, vacancy["link"]);
      SaveVacancies(vacancies, writeOk);
    }
  }
}
