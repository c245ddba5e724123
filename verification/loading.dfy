/** The pure pieces of reading artifacts.txt: the substat list at the end of a line, and the
    routing of each artifact to the bucket of its slot. Reading the file and extracting the
    leading fields of a line are not part of this model. */
module Loading {
  import opened Wrappers
  import opened Artifacts

  /** The characters `>>` on a string stream skips: std::isspace in the "C" locale. */
  predicate IsSpace(c: char)
  {
    c == ' ' || c == '\t' || c == '\n' || c == '\U{000B}' || c == '\U{000C}' || c == '\r'
  }

  /** A word `>>` can deliver: non-empty, with no white space in it. */
  predicate IsToken(t: string)
  {
    t != [] && forall k :: 0 <= k < |t| ==> !IsSpace(t[k])
  }

  /** Where the word starting at `i` ends: the first white space at or after `i`, or the end. */
  function TokenEnd(s: string, i: nat): (j: nat)
    requires i <= |s|
    ensures i <= j <= |s|
    ensures forall k :: i <= k < j ==> !IsSpace(s[k])
    ensures j == |s| || IsSpace(s[j])
    decreases |s| - i
  {
    if i == |s| || IsSpace(s[i]) then i else TokenEnd(s, i + 1)
  }

  /** The words successive `ss >> pair` extractions deliver from `s`, in order: leading white
      space is skipped, then the longest run without white space is taken. */
  function Tokens(s: string): seq<string>
    decreases |s|
  {
    if s == [] then []
    else if IsSpace(s[0]) then Tokens(s[1..])
    else
      var j := TokenEnd(s, 0);
      [s[..j]] + Tokens(s[j..])
  }

  /** Words written out, each followed by one space. */
  function Join(ts: seq<string>): string
  {
    if ts == [] then [] else ts[0] + " " + Join(ts[1..])
  }

  /** Every word the stream delivers is non-empty and holds no white space. */
  lemma {:induction false} TokensAreTokens(s: string)
    ensures forall t :: t in Tokens(s) ==> IsToken(t)
    decreases |s|
  {
    if s == [] {
    } else if IsSpace(s[0]) {
      TokensAreTokens(s[1..]);
    } else {
      var j := TokenEnd(s, 0);
      TokensAreTokens(s[j..]);
      assert Tokens(s) == [s[..j]] + Tokens(s[j..]);
      assert IsToken(s[..j]);
    }
  }

  /** A word followed by white space ends exactly where the word does. */
  lemma {:induction false} TokenEndOfWord(t: string, rest: string, i: nat)
    requires IsToken(t) && rest != [] && IsSpace(rest[0])
    requires i <= |t|
    ensures TokenEnd(t + rest, i) == |t|
    decreases |t| - i
  {
    if i < |t| {
      assert (t + rest)[i] == t[i];
      TokenEndOfWord(t, rest, i + 1);
    } else {
      assert (t + rest)[i] == rest[0];
    }
  }

  /** Writing words out separated by spaces and reading them back gives the same words. */
  lemma {:induction false} TokensJoin(ts: seq<string>)
    requires forall t :: t in ts ==> IsToken(t)
    ensures Tokens(Join(ts)) == ts
  {
    if ts != [] {
      var t, rest := ts[0], Join(ts[1..]);
      var s := t + " " + rest;
      assert Join(ts) == s;
      assert t + (" " + rest) == s;
      TokenEndOfWord(t, " " + rest, 0);
      assert s[..|t|] == t;
      assert s[|t|..] == " " + rest;
      assert s[|t|..][1..] == rest;
      assert s[|t|..][0] == ' ';
      TokensJoin(ts[1..]);
      assert ts == [t] + ts[1..];
    }
  }

  /** string::find for one character: the first position holding `c`, if any. */
  function Find(t: string, c: char): (r: Option<nat>)
    ensures r.None? <==> c !in t
    ensures r.Some? ==> r.value < |t| && t[r.value] == c && c !in t[..r.value]
  {
    if t == [] then None
    else if t[0] == c then Some(0)
    else match Find(t[1..], c)
      case None => None
      case Some(p) =>
        assert t[1..][..p] == t[1..p + 1];
        Some(p + 1)
  }

  /** One word of the substat list: split at the first ':' into the key and the text `stod`
      converts; a word without ':' yields nothing. */
  function ParsePair(t: string, stod: string -> real): (r: Option<Substat>)
    ensures r.None? <==> ':' !in t
    ensures r.Some? ==> ':' !in r.value.key
    ensures r.Some? ==> |r.value.key| < |t|
    ensures r.Some? ==> t == r.value.key + ":" + t[|r.value.key| + 1..] && r.value.value == stod(t[|r.value.key| + 1..])
  {
    match Find(t, ':')
    case None => None
    case Some(pos) =>
      assert t == t[..pos] + ":" + t[pos + 1..];
      Some(Substat(t[..pos], stod(t[pos + 1..])))
  }

  /** The substats a sequence of words yields, in order. */
  function ParseTokens(ts: seq<string>, stod: string -> real): seq<Substat>
  {
    if ts == [] then []
    else
      var init := ParseTokens(ts[..|ts| - 1], stod);
      match ParsePair(ts[|ts| - 1], stod)
      case None => init
      case Some(sub) => init + [sub]
  }

  /** parseSubstats: every word of the text that holds a ':' becomes one substat, in order. */
  method ParseSubstats(substatStr: string, stod: string -> real) returns (substats: seq<Substat>)
    ensures substats == ParseTokens(Tokens(substatStr), stod)
  {
    substats := [];
    var words := Tokens(substatStr);
    for i := 0 to |words|
      invariant substats == ParseTokens(words[..i], stod)
    {
      var pair := words[i];
      assert words[..i + 1][..i] == words[..i];
      var pos := Find(pair, ':');
      if pos.Some? {
        var substat := Substat(pair[..pos.value], stod(pair[pos.value + 1..]));
        substats := substats + [substat];
      }
    }
    assert words[..|words|] == words;
  }

  /** Parsing a concatenation parses each part in turn: the input order is kept. */
  lemma {:induction false} ParseTokensAppend(xs: seq<string>, ys: seq<string>, stod: string -> real)
    ensures ParseTokens(xs + ys, stod) == ParseTokens(xs, stod) + ParseTokens(ys, stod)
    decreases |ys|
  {
    if ys == [] {
      assert xs + ys == xs;
    } else {
      var init := ys[..|ys| - 1];
      assert (xs + ys)[..|xs + ys| - 1] == xs + init;
      assert (xs + ys)[|xs + ys| - 1] == ys[|ys| - 1];
      ParseTokensAppend(xs, init, stod);
    }
  }

  /** No more substats than words; every substat comes from one word holding a ':', with the
      key the text before the first ':' and the value `stod` of the text after it. */
  lemma {:induction false} ParseTokensSound(ts: seq<string>, stod: string -> real)
    ensures |ParseTokens(ts, stod)| <= |ts|
    ensures forall sub :: sub in ParseTokens(ts, stod) ==>
              ':' !in sub.key && exists t :: t in ts && ParsePair(t, stod) == Some(sub)
  {
    if ts != [] {
      var init := ts[..|ts| - 1];
      ParseTokensSound(init, stod);
      forall sub | sub in ParseTokens(ts, stod)
        ensures ':' !in sub.key && exists t :: t in ts && ParsePair(t, stod) == Some(sub)
      {
        if sub in ParseTokens(init, stod) {
          var t :| t in init && ParsePair(t, stod) == Some(sub);
          assert t in ts;
        } else {
          assert ParsePair(ts[|ts| - 1], stod) == Some(sub);
        }
      }
    }
  }

  /** Substats written as `key:text` words, in order. */
  function Written(fields: seq<(string, string)>): seq<string>
  {
    if fields == [] then []
    else Written(fields[..|fields| - 1]) + [fields[|fields| - 1].0 + ":" + fields[|fields| - 1].1]
  }

  /** The substats those words stand for, each text converted by `stod`. */
  function Meant(fields: seq<(string, string)>, stod: string -> real): seq<Substat>
  {
    if fields == [] then []
    else Meant(fields[..|fields| - 1], stod) + [Substat(fields[|fields| - 1].0, stod(fields[|fields| - 1].1))]
  }

  /** A key without ':' followed by ':' and a text splits back into that key and text. */
  lemma PairParses(key: string, text: string, stod: string -> real)
    requires ':' !in key
    ensures ParsePair(key + ":" + text, stod) == Some(Substat(key, stod(text)))
  {
    var w := key + ":" + text;
    assert w[|key|] == ':';
    var k := ParsePair(w, stod).value.key;
    assert w == k + ":" + w[|k| + 1..];
    assert k == w[..|k|] == key;
    assert w[|key| + 1..] == text;
  }

  lemma {:induction false} WrittenParses(fields: seq<(string, string)>, stod: string -> real)
    requires forall i :: 0 <= i < |fields| ==> ':' !in fields[i].0
    ensures ParseTokens(Written(fields), stod) == Meant(fields, stod)
  {
    if fields != [] {
      var n := |fields| - 1;
      WrittenParses(fields[..n], stod);
      PairParses(fields[n].0, fields[n].1, stod);
      var ws := Written(fields);
      assert ws[..|ws| - 1] == Written(fields[..n]);
    }
  }

  /** Every word of a written substat list is a word the stream delivers whole. */
  lemma {:induction false} WrittenAreTokens(fields: seq<(string, string)>)
    requires forall i :: 0 <= i < |fields| ==> forall k :: 0 <= k < |fields[i].0| ==> !IsSpace(fields[i].0[k])
    requires forall i :: 0 <= i < |fields| ==> forall k :: 0 <= k < |fields[i].1| ==> !IsSpace(fields[i].1[k])
    ensures forall t :: t in Written(fields) ==> IsToken(t)
  {
    if fields != [] {
      var n := |fields| - 1;
      WrittenAreTokens(fields[..n]);
      var (key, text) := fields[n];
      var w := key + ":" + text;
      forall k | 0 <= k < |w|
        ensures !IsSpace(w[k])
      {
        if k < |key| {
          assert w[k] == key[k];
        } else if k > |key| {
          assert w[k] == text[k - |key| - 1];
        }
      }
    }
  }

  /** A substat list written out as `key:text` words separated by spaces parses back to the
      same keys, each with `stod` of its text, when no key holds a ':' and no key or text
      holds white space. */
  lemma ParseSubstatsRoundTrip(fields: seq<(string, string)>, stod: string -> real)
    requires forall i :: 0 <= i < |fields| ==> ':' !in fields[i].0
    requires forall i :: 0 <= i < |fields| ==> forall k :: 0 <= k < |fields[i].0| ==> !IsSpace(fields[i].0[k])
    requires forall i :: 0 <= i < |fields| ==> forall k :: 0 <= k < |fields[i].1| ==> !IsSpace(fields[i].1[k])
    ensures ParseTokens(Tokens(Join(Written(fields))), stod) == Meant(fields, stod)
  {
    WrittenAreTokens(fields);
    TokensJoin(Written(fields));
    WrittenParses(fields, stod);
  }

  /** The bucket names of loadArtifacts, in bucket order. */
  const SlotNames: seq<string> := ["flower", "plume", "sands", "goblet", "circlet"]

  /** The bucket a slot key is routed to; an unknown slot key is routed nowhere. */
  function SlotIndex(slotKey: string): (r: Option<nat>)
    ensures r.None? <==> slotKey !in SlotNames
    ensures r.Some? ==> r.value < |SlotNames| && SlotNames[r.value] == slotKey
  {
    if slotKey == "flower" then Some(0)
    else if slotKey == "plume" then Some(1)
    else if slotKey == "sands" then Some(2)
    else if slotKey == "goblet" then Some(3)
    else if slotKey == "circlet" then Some(4)
    else None
  }

  /** The records of one slot, in input order. */
  function OfSlot(records: seq<Artifact>, slotKey: string): seq<Artifact>
  {
    if records == [] then []
    else
      var init := OfSlot(records[..|records| - 1], slotKey);
      if records[|records| - 1].slotKey == slotKey then init + [records[|records| - 1]] else init
  }

  /** The records whose slot key names no bucket, in input order. */
  function Unrouted(records: seq<Artifact>): seq<Artifact>
  {
    if records == [] then []
    else
      var init := Unrouted(records[..|records| - 1]);
      if records[|records| - 1].slotKey !in SlotNames then init + [records[|records| - 1]] else init
  }

  /** The routing loop of loadArtifacts over records already read: five buckets, each record
      appended to the bucket of its slot key, records of any other slot key dropped. */
  method RouteArtifacts(records: seq<Artifact>) returns (artifactsBySlot: seq<seq<Artifact>>)
    ensures |artifactsBySlot| == |SlotNames|
    ensures forall k :: 0 <= k < |SlotNames| ==> artifactsBySlot[k] == OfSlot(records, SlotNames[k])
  {
    artifactsBySlot := [[], [], [], [], []];
    for i := 0 to |records|
      invariant |artifactsBySlot| == |SlotNames|
      invariant forall k :: 0 <= k < |SlotNames| ==> artifactsBySlot[k] == OfSlot(records[..i], SlotNames[k])
    {
      var artifact := records[i];
      assert records[..i + 1][..i] == records[..i];
      var slot := SlotIndex(artifact.slotKey);
      if slot.Some? {
        artifactsBySlot := artifactsBySlot[slot.value := artifactsBySlot[slot.value] + [artifact]];
      }
    }
    assert records[..|records|] == records;
  }

  /** A record is in bucket k exactly when it is one of the records with slot key SlotNames[k]. */
  lemma {:induction false} OfSlotMembers(records: seq<Artifact>, slotKey: string, a: Artifact)
    ensures a in OfSlot(records, slotKey) <==> a in records && a.slotKey == slotKey
  {
    if records != [] {
      var init := records[..|records| - 1];
      OfSlotMembers(init, slotKey, a);
      assert records == init + [records[|records| - 1]];
    }
  }

  /** The routing partitions the input: the five buckets and the dropped records together hold
      every record exactly once by count. */
  lemma {:induction false} RoutingPartition(records: seq<Artifact>)
    ensures |OfSlot(records, "flower")| + |OfSlot(records, "plume")| + |OfSlot(records, "sands")|
            + |OfSlot(records, "goblet")| + |OfSlot(records, "circlet")| + |Unrouted(records)| == |records|
  {
    if records != [] {
      RoutingPartition(records[..|records| - 1]);
    }
  }
}
