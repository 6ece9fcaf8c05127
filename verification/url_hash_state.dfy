/** The pure part of the `useUrlHashState` hook, which keeps the two odds
    strings in the page's URL hash as `#<odds1>-<odds2>`: reading the hash
    into a pair, the compare-then-write step of `setHashValues`, and the
    state the hook holds. The browser, the router and React are not part of
    this model: the hash is a plain string, and a write replaces it. */
module UrlHashState {

  import opened Wrappers
  import opened Strings

  /** The two odds strings, as typed. */
  type Odds = (string, string)

  /** The hash after its first '#' is removed, cut at every '-'. */
  function HashFields(hash: string): (fields: seq<string>)
    ensures |fields| >= 1
    ensures SeparatorFree(fields, '-')
    ensures Join(fields, '-') == ReplaceFirst(hash, '#')
  {
    Split(ReplaceFirst(hash, '#'), '-')
  }

  /** `readHash`: the first two fields, with '' for a missing second field;
      any further field is ignored. */
  function ReadHash(hash: string): (values: Odds)
  {
    var fields := HashFields(hash);
    (fields[0], if |fields| >= 2 then fields[1] else "")
  }

  /** The hash `setHashValues` writes for the pair. */
  function FormatHash(values: Odds): (hash: string)
  {
    "#" + values.0 + "-" + values.1
  }

  /** The fields `setHashValues` compares against: the first is always there,
      the second is absent (`undefined`) when the hash has no '-'. Unlike
      ReadHash, nothing is defaulted to ''. */
  function CurrentFields(hash: string): (current: (string, Option<string>))
  {
    var fields := HashFields(hash);
    (fields[0], if |fields| >= 2 then Some(fields[1]) else None)
  }

  /** The guard of `setHashValues`: some field differs from the next value. */
  predicate Changes(hash: string, next: Odds)
  {
    var current := CurrentFields(hash);
    current.0 != next.0 || current.1 != Some(next.1)
  }

  /** The hook's state: the page's hash and the pair it hands out. */
  datatype HashState = HashState(hash: string, values: Odds)

  /** The state before the first read: `useState(['', ''])`. */
  function Initial(hash: string): (st: HashState)
    ensures st.hash == hash && st.values == ("", "")
  {
    HashState(hash, ("", ""))
  }

  /** `readHash` as run on mount and on every `hashchange`: the values become
      what the hash says, the hash is untouched. */
  function OnHashChange(st: HashState): (st': HashState)
    ensures st'.hash == st.hash
    ensures st'.values == ReadHash(st.hash)
  {
    st.(values := ReadHash(st.hash))
  }

  /** The read on mount discards the `useState` default: the state after it
      is the one a read gives from any held pair, and holds what the hash
      says. */
  lemma MountReadReplacesDefault(hash: string, values: Odds)
    ensures OnHashChange(Initial(hash)) == OnHashChange(HashState(hash, values))
    ensures OnHashChange(Initial(hash)) == HashState(hash, ReadHash(hash))
  {
  }

  /** `setHashValues(next)`: when the hash already holds the pair nothing
      happens; otherwise the hash becomes `#<next.0>-<next.1>` and the held
      values become exactly `next`. */
  function SetHashValues(st: HashState, next: Odds): (st': HashState)
    ensures !Changes(st.hash, next) ==> st' == st
    ensures Changes(st.hash, next) ==> st'.values == next
    ensures Changes(st.hash, next) ==> st'.hash == ['#'] + next.0 + ['-'] + next.1
  {
    if Changes(st.hash, next) then HashState(FormatHash(next), next) else st
  }

  /** What ReadHash returns, stated without Split: with rest the hash
      after its first '#', the first value is the text of rest before its
      first '-' (all of rest if it has none), and the second value is the
      text after that '-' up to the next one (or the end), '' if rest has no
      '-' at all. */
  lemma ReadHashFields(hash: string)
    ensures var rest, values := ReplaceFirst(hash, '#'), ReadHash(hash);
            && '-' !in values.0 && '-' !in values.1
            && ('-' !in rest ==> values == (rest, ""))
            && ('-' in rest ==>
                  && |values.0| + 1 + |values.1| <= |rest|
                  && rest[..|values.0| + 1 + |values.1|] == values.0 + "-" + values.1
                  && (|values.0| + 1 + |values.1| == |rest| || rest[|values.0| + 1 + |values.1|] == '-'))
  {
    var rest := ReplaceFirst(hash, '#');
    var fields := HashFields(hash);
    assert '-' !in fields[0];
    if '-' in rest {
      SplitFirstTwo(rest, '-');
      assert '-' !in fields[1];
    }
  }

  /** Removing the first '#' from a string that starts with '#' removes
      exactly that leading '#'. */
  lemma StripLeadingHash(t: string)
    ensures ReplaceFirst(['#'] + t, '#') == t
  {
    var s := ['#'] + t;
    FirstIndexUnique(s, '#', 0);
    assert s[1..] == t;
  }

  /** Two fields joined with a separator. */
  lemma JoinPair(a: string, b: string, sep: char)
    ensures Join([a, b], sep) == a + [sep] + b
  {
    assert [a, b][1..] == [b];
  }

  /** The fields of a written hash are the written pair, when neither value
      contains '-'. */
  lemma FormattedFields(values: Odds)
    requires '-' !in values.0 && '-' !in values.1
    ensures HashFields(FormatHash(values)) == [values.0, values.1]
  {
    var body := values.0 + "-" + values.1;
    assert FormatHash(values) == ['#'] + body;
    StripLeadingHash(body);
    JoinPair(values.0, values.1, '-');
    SplitJoin([values.0, values.1], '-');
  }

  /** Reading the hash that a write produced gives the written pair back,
      provided neither value contains '-'. */
  lemma ReadFormatRoundTrip(values: Odds)
    requires '-' !in values.0 && '-' !in values.1
    ensures ReadHash(FormatHash(values)) == values
  {
    FormattedFields(values);
  }

  /** A value containing '-' does not survive the round trip: the hash of
      ("1-2", "3") reads back as ("1", "2"). */
  lemma DashSplitsValue()
    ensures ReadHash(FormatHash(("1-2", "3"))) == ("1", "2")
  {
    var fields := ["1", "2", "3"];
    var body := Join(fields, '-');
    assert body == "1-2-3" by {
      JoinPair("2", "3", '-');
      assert fields[1..] == ["2", "3"];
    }
    assert FormatHash(("1-2", "3")) == ['#'] + body;
    StripLeadingHash(body);
    SplitJoin(fields, '-');
    assert HashFields(FormatHash(("1-2", "3"))) == fields;
  }

  /** The write-side comparison and the read agree whenever the hash has a
      second field; with no '-' after the '#' every write goes through, even
      one of the very values a read would produce. */
  lemma ChangesVersusRead(hash: string, next: Odds)
    ensures |HashFields(hash)| >= 2 ==> (Changes(hash, next) <==> ReadHash(hash) != next)
    ensures |HashFields(hash)| == 1 ==> Changes(hash, next)
  {
  }

  /** With an empty hash, writing ('', '') still fires and yields "#-". */
  lemma EmptyHashStillWrites(values: Odds)
    ensures SetHashValues(HashState("", values), ("", "")) == HashState("#-", ("", ""))
  {
    assert HashFields("") == [""];
  }

  /** Writing the same pair twice is the same as writing it once. For a pair
      without '-' the second write does not fire (WrittenHashIsCurrent); for
      one with a '-' it fires again but writes the same hash and pair. */
  lemma SetHashValuesIdempotent(st: HashState, next: Odds)
    ensures SetHashValues(SetHashValues(st, next), next) == SetHashValues(st, next)
  {
  }

  /** After a write of a pair without '-', the hash's fields are the pair. */
  lemma WrittenHashIsCurrent(next: Odds)
    requires '-' !in next.0 && '-' !in next.1
    ensures CurrentFields(FormatHash(next)) == (next.0, Some(next.1))
    ensures !Changes(FormatHash(next), next)
  {
    FormattedFields(next);
  }

  /** After `setHashValues(next)` with a pair free of '-', the next
      `hashchange` read hands out exactly that pair, whether or not the write
      fired. */
  lemma ReadAfterSet(st: HashState, next: Odds)
    requires '-' !in next.0 && '-' !in next.1
    ensures OnHashChange(SetHashValues(st, next)).values == next
  {
    if Changes(st.hash, next) {
      ReadFormatRoundTrip(next);
    } else {
      ChangesVersusRead(st.hash, next);
    }
  }

}
