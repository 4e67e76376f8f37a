/** The review summary shown on the last step: the form's entries without the
    technical fields and without empty values, in their original order. */
module Summary {
  import opened Fields

  /** The anti-spam field and the mail subject are never shown. */
  const TechnicalNames: set<string> := {"_gotcha", "_subject"}

  predicate Shown(e: Entry) {
    e.name !in TechnicalNames && e.value != ""
  }

  /** The rows of the summary, as `(name, value)` pairs. */
  function Review(entries: seq<Entry>): seq<Entry> {
    if entries == [] then []
    else
      var e := entries[|entries| - 1];
      Review(entries[..|entries| - 1]) + (if Shown(e) then [e] else [])
  }

  /** The summary of a concatenation is the concatenation of the summaries.
      With the summary of a single entry (the entry itself when it is shown,
      nothing otherwise) this fixes the summary as the order-preserving
      filter of the entries. */
  lemma {:induction false} ReviewConcat(a: seq<Entry>, b: seq<Entry>)
    ensures Review(a + b) == Review(a) + Review(b)
    decreases |b|
  {
    if b == [] {
      assert a + b == a;
    } else {
      var c := b[..|b| - 1];
      ReviewConcat(a, c);
      assert (a + b)[..|a + b| - 1] == a + c;
    }
  }

  /** A row of the summary is an entry of the form that is shown, and every
      such entry is a row. */
  lemma {:induction false} ReviewMembers(entries: seq<Entry>)
    ensures forall e :: e in Review(entries) <==> e in entries && Shown(e)
  {
    if entries != [] {
      var init, e := entries[..|entries| - 1], entries[|entries| - 1];
      ReviewMembers(init);
      assert entries == init + [e];
    }
  }

  /** The summary never holds more rows than the form has entries, and it is
      the whole entry list exactly when every entry is shown. */
  lemma {:induction false} ReviewKeepsAllShown(entries: seq<Entry>)
    ensures |Review(entries)| <= |entries|
    ensures Review(entries) == entries <==> forall i :: 0 <= i < |entries| ==> Shown(entries[i])
  {
    if entries != [] {
      var init, e := entries[..|entries| - 1], entries[|entries| - 1];
      ReviewKeepsAllShown(init);
      assert entries == init + [e];
      if Review(entries) == entries {
        assert Review(init) == init by {
          if !Shown(e) {
            assert false;
          }
          assert Review(entries) == Review(init) + [e];
          assert Review(init) == Review(entries)[..|init|];
        }
      }
    }
  }
}
