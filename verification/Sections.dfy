/** The one-pass covers and counts of sectionSummariesFor (src/modules/sections/sections.service.ts). */
module Sections {
  import opened Common
  import opened Groups

  datatype Media = Media(id: string, position: int, storageKey: string)

  datatype Section = Section(id: string, name: string)

  datatype Summary = Summary(section: Section, cover: Option<Media>, photoCount: nat)

  function Ids(sections: seq<Section>): seq<string> {
    seq(|sections|, i requires 0 <= i < |sections| => sections[i].id)
  }

  /** A section's summary told from that section's own media alone. */
  function Summarize(section: Section, media: seq<Media>): Summary {
    Summary(section, if media == [] then None else Some(media[0]), |media|)
  }

  /** One pass: the first row seen of a section is its cover, and each row seen counts. */
  method CoverAndCount(rows: seq<(string, Media)>) returns (covers: map<string, Media>, counts: map<string, nat>)
    ensures covers.Keys == counts.Keys
    ensures forall k :: k in counts <==> Under(rows, k) != []
    ensures forall k | k in counts :: counts[k] == |Under(rows, k)| && covers[k] == Under(rows, k)[0]
  {
    covers, counts := map[], map[];
    for n := 0 to |rows|
      invariant covers.Keys == counts.Keys
      invariant forall k :: k in counts <==> Under(rows[..n], k) != []
      invariant forall k | k in counts :: counts[k] == |Under(rows[..n], k)| && covers[k] == Under(rows[..n], k)[0]
    {
      var (id, media) := rows[n];
      forall k ensures Under(rows[..n + 1], k) == Under(rows[..n], k) + if id == k then [media] else [] {
        assert rows[..n + 1] == rows[..n] + [rows[n]];
        UnderAppend(rows[..n], rows[n], k);
      }
      counts := counts[id := (if id in counts then counts[id] else 0) + 1];
      if id !in covers {
        covers := covers[id := media];
      }
    }
    assert rows[..|rows|] == rows;
  }

  /**
   * `rows` is the second query's result: every photo of the listed sections, by ascending position.
   * No query is made when there is no section.
   */
  method SectionSummaries(sections: seq<Section>, rows: seq<(string, Media)>) returns (summaries: seq<Summary>)
    ensures |summaries| == |sections|
    ensures forall i | 0 <= i < |sections| :: summaries[i] == Summarize(sections[i], Under(rows, sections[i].id))
  {
    if |sections| == 0 {
      return [];
    }
    var covers, counts := CoverAndCount(rows);
    summaries := [];
    for i := 0 to |sections|
      invariant |summaries| == i
      invariant forall j | 0 <= j < i :: summaries[j] == Summarize(sections[j], Under(rows, sections[j].id))
    {
      var id := sections[i].id;
      summaries := summaries + [Summary(
                                  sections[i],
                                  if id in covers then Some(covers[id]) else None,
                                  if id in counts then counts[id] else 0)];
    }
  }

  function TotalPhotos(summaries: seq<Summary>): nat {
    if summaries == [] then 0 else summaries[0].photoCount + TotalPhotos(summaries[1..])
  }

  lemma IdsOfRest(sections: seq<Section>)
    requires sections != []
    ensures Ids(sections)[1..] == Ids(sections[1..])
  {
    forall i | 0 <= i < |sections| - 1 ensures Ids(sections)[1..][i] == Ids(sections[1..])[i] {
      assert Ids(sections)[i + 1] == sections[i + 1].id == sections[1..][i].id;
    }
  }

  lemma {:induction false} TotalIsSizes(sections: seq<Section>, rows: seq<(string, Media)>, summaries: seq<Summary>)
    requires |summaries| == |sections|
    requires forall i | 0 <= i < |sections| :: summaries[i] == Summarize(sections[i], Under(rows, sections[i].id))
    ensures TotalPhotos(summaries) == Sizes(Ids(sections), rows)
  {
    if sections != [] {
      TotalIsSizes(sections[1..], rows, summaries[1..]);
      IdsOfRest(sections);
    }
  }

  /** The counts sum to the rows read. */
  lemma CountsSumToRows(sections: seq<Section>, rows: seq<(string, Media)>, summaries: seq<Summary>)
    requires Distinct(Ids(sections)) && Covers(Ids(sections), rows)
    requires |summaries| == |sections|
    requires forall i | 0 <= i < |sections| :: summaries[i] == Summarize(sections[i], Under(rows, sections[i].id))
    ensures TotalPhotos(summaries) == |rows|
  {
    TotalIsSizes(sections, rows, summaries);
    SizesAddUp(Ids(sections), rows);
  }

  ghost predicate ByPosition(rows: seq<(string, Media)>) {
    forall i, j | 0 <= i < j < |rows| :: rows[i].1.position <= rows[j].1.position
  }

  /**
   * With the rows by ascending position, a cover is a photo of its section that none of the section's
   * photos comes before.
   */
  lemma CoverComesFirst(rows: seq<(string, Media)>, section: Section)
    requires ByPosition(rows)
    ensures var cover := Summarize(section, Under(rows, section.id)).cover;
      && (cover.None? <==> NoneUnder(rows, section.id))
      && (cover.Some? ==> (section.id, cover.value) in rows)
      && (cover.Some? ==> forall i | 0 <= i < |rows| && rows[i].0 == section.id ::
           cover.value.position <= rows[i].1.position)
  {
    if NoneUnder(rows, section.id) {
      UnderAbsent(rows, section.id);
    } else {
      var c := FirstOfGroup(rows, section.id);
      forall i | 0 <= i < |rows| && rows[i].0 == section.id ensures rows[c].1.position <= rows[i].1.position {
        assert c <= i;
      }
    }
  }
}
