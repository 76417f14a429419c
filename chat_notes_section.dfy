/**
 * The chat-notes section: a keyword cloud tallied from every message of every
 * note, and the per-character typing animation that reveals the messages of
 * the selected note one after another.
 */
module ChatNotesSection {
  import opened Wrappers

  datatype Message = Message(id: string, content: string)

  datatype Note = Note(id: string, messages: seq<Message>)

  // ---------------------------------------------------------------------
  // Splitting a message into words
  // ---------------------------------------------------------------------

  /** JavaScript's \s: the ECMAScript white-space and line-terminator characters. */
  predicate IsSpace(c: char) {
    || c == '\t' || c == '\n' || c == '\U{000B}' || c == '\U{000C}' || c == '\r' || c == ' '
    || c == '\U{00A0}' || c == '\U{1680}' || ('\U{2000}' <= c <= '\U{200A}')
    || c == '\U{2028}' || c == '\U{2029}' || c == '\U{202F}' || c == '\U{205F}'
    || c == '\U{3000}' || c == '\U{FEFF}'
  }

  /** One character of the separator class: white space and ASCII or full-width punctuation. */
  predicate IsSep(c: char) {
    || IsSpace(c)
    || c == ',' || c == '，' || c == '.' || c == '。' || c == '!' || c == '！'
    || c == '?' || c == '？' || c == ';' || c == '；' || c == ':'
  }

  /** The input after its leading run of separators. */
  function SkipSeps(s: string): (r: string)
    ensures |r| <= |s| && r == s[|s| - |r|..]
    ensures r == [] || !IsSep(r[0])
    ensures s != [] && IsSep(s[0]) ==> |r| < |s|
    decreases |s|
  {
    if s != [] && IsSep(s[0]) then SkipSeps(s[1..]) else s
  }

  /**
   * String.prototype.split with a one-or-more separator pattern: every run of
   * separators cuts the input once; a leading or trailing run leaves an empty
   * word at that end, and the empty input splits into one empty word.
   */
  function SplitFrom(s: string, cur: string): seq<string>
    decreases |s|
  {
    if s == [] then [cur]
    else if IsSep(s[0]) then [cur] + SplitFrom(SkipSeps(s), "")
    else SplitFrom(s[1..], cur + [s[0]])
  }

  function SplitWords(s: string): seq<string> {
    SplitFrom(s, "")
  }

  /** The characters of s that are not separators, in order. */
  function NonSep(s: string): string
    decreases |s|
  {
    if s == [] then [] else (if IsSep(s[0]) then [] else [s[0]]) + NonSep(s[1..])
  }

  function Concat(words: seq<string>): string
    decreases |words|
  {
    if words == [] then [] else words[0] + Concat(words[1..])
  }

  predicate SepFree(w: string) {
    forall k :: 0 <= k < |w| ==> !IsSep(w[k])
  }

  lemma {:induction false} SkipSepsKeepsNonSep(s: string)
    ensures NonSep(SkipSeps(s)) == NonSep(s)
    decreases |s|
  {
    if s != [] && IsSep(s[0]) {
      SkipSepsKeepsNonSep(s[1..]);
    }
  }

  lemma {:induction false} SplitFromSepFreeWords(s: string, cur: string)
    requires SepFree(cur)
    ensures forall i :: 0 <= i < |SplitFrom(s, cur)| ==> SepFree(SplitFrom(s, cur)[i])
    decreases |s|
  {
    if s != [] && IsSep(s[0]) {
      var rest := SplitFrom(SkipSeps(s), "");
      SplitFromSepFreeWords(SkipSeps(s), "");
      assert SplitFrom(s, cur) == [cur] + rest;
      assert forall i :: 1 <= i < |[cur] + rest| ==> ([cur] + rest)[i] == rest[i - 1];
    } else if s != [] {
      assert SepFree(cur + [s[0]]) by {
        forall k | 0 <= k < |cur| + 1 ensures !IsSep((cur + [s[0]])[k]) {
          if k < |cur| { assert (cur + [s[0]])[k] == cur[k]; }
        }
      }
      SplitFromSepFreeWords(s[1..], cur + [s[0]]);
    }
  }

  lemma {:induction false} SplitFromConcat(s: string, cur: string)
    ensures Concat(SplitFrom(s, cur)) == cur + NonSep(s)
    decreases |s|
  {
    if s == [] {
      assert Concat([cur]) == cur + Concat([]);
      assert cur + [] == cur;
    } else if IsSep(s[0]) {
      var rest := SplitFrom(SkipSeps(s), "");
      SplitFromConcat(SkipSeps(s), "");
      SkipSepsKeepsNonSep(s);
      assert ([cur] + rest)[0] == cur;
      assert ([cur] + rest)[1..] == rest;
      assert "" + NonSep(SkipSeps(s)) == NonSep(s);
    } else {
      SplitFromConcat(s[1..], cur + [s[0]]);
      assert NonSep(s) == [s[0]] + NonSep(s[1..]);
      assert cur + [s[0]] + NonSep(s[1..]) == cur + NonSep(s);
    }
  }

  /**
   * Splitting loses exactly the separators: no word holds a separator, and the
   * words put back together are the input with its separators deleted.
   */
  lemma SplitWordsSound(s: string)
    ensures forall i :: 0 <= i < |SplitWords(s)| ==> SepFree(SplitWords(s)[i])
    ensures Concat(SplitWords(s)) == NonSep(s)
  {
    SplitFromSepFreeWords(s, "");
    SplitFromConcat(s, "");
    assert "" + NonSep(s) == NonSep(s);
  }

  lemma {:induction false} SplitFromSepFree(s: string, cur: string)
    requires SepFree(s)
    ensures SplitFrom(s, cur) == [cur + s]
    decreases |s|
  {
    if s != [] {
      assert !IsSep(s[0]);
      assert SepFree(s[1..]) by {
        forall k | 0 <= k < |s| - 1 ensures !IsSep(s[1..][k]) {
          assert s[1..][k] == s[k + 1];
        }
      }
      SplitFromSepFree(s[1..], cur + [s[0]]);
      assert cur + [s[0]] + s[1..] == cur + s;
    } else {
      assert cur + s == cur;
    }
  }

  /** A message without separators is a single word. */
  lemma SplitWordsSepFree(s: string)
    requires SepFree(s)
    ensures SplitWords(s) == [s]
  {
    SplitFromSepFree(s, "");
    assert "" + s == s;
  }

  /** Reading a separator-free run only extends the current word. */
  lemma {:induction false} SplitFromWord(w: string, s: string, cur: string)
    requires SepFree(w)
    ensures SplitFrom(w + s, cur) == SplitFrom(s, cur + w)
    decreases |w|
  {
    if w == [] {
      assert w + s == s;
      assert cur + w == cur;
    } else {
      assert (w + s)[0] == w[0] && !IsSep(w[0]);
      assert (w + s)[1..] == w[1..] + s;
      assert SepFree(w[1..]) by {
        forall k | 0 <= k < |w| - 1 ensures !IsSep(w[1..][k]) {
          assert w[1..][k] == w[k + 1];
        }
      }
      SplitFromWord(w[1..], s, cur + [w[0]]);
      assert cur + [w[0]] + w[1..] == cur + w;
    }
  }

  /** Skipping a run of separators stops exactly where the run ends. */
  lemma {:induction false} SkipSepsRun(r: string, rest: string)
    requires forall k :: 0 <= k < |r| ==> IsSep(r[k])
    requires rest == [] || !IsSep(rest[0])
    ensures SkipSeps(r + rest) == rest
    decreases |r|
  {
    if r == [] {
      assert r + rest == rest;
    } else {
      assert (r + rest)[0] == r[0];
      assert (r + rest)[1..] == r[1..] + rest;
      SkipSepsRun(r[1..], rest);
    }
  }

  /**
   * A maximal run of separators cuts exactly once: the word before the run is
   * emitted whole and splitting resumes right after the run.
   */
  lemma SplitWordsCut(w: string, r: string, rest: string)
    requires SepFree(w)
    requires r != [] && forall k :: 0 <= k < |r| ==> IsSep(r[k])
    requires rest == [] || !IsSep(rest[0])
    ensures SplitWords(w + r + rest) == [w] + SplitWords(rest)
  {
    assert w + r + rest == w + (r + rest);
    SplitFromWord(w, r + rest, "");
    assert "" + w == w;
    assert (r + rest)[0] == r[0];
    SkipSepsRun(r, rest);
  }

  /** A trailing run of separators leaves an empty last word, as `split` does. */
  lemma SplitWordsTrailing(w: string, r: string)
    requires SepFree(w)
    requires r != [] && forall k :: 0 <= k < |r| ==> IsSep(r[k])
    ensures SplitWords(w + r) == [w, ""]
  {
    SplitWordsCut(w, r, []);
    assert w + r + [] == w + r;
  }

  // ---------------------------------------------------------------------
  // Counting keywords
  // ---------------------------------------------------------------------

  /** The stop list: one- and two-character function words never counted. */
  const CommonWords: seq<string> := [
    "的", "了", "是", "在", "我", "有", "和", "就", "不", "人", "都", "一", "一个", "上",
    "也", "很", "到", "说", "要", "去", "你", "会", "着", "没有", "看", "好", "自己", "这"]

  /** A word is counted when it has at least two characters and is not a stop word. */
  predicate Eligible(w: string) {
    |w| >= 2 && w !in CommonWords
  }

  /** The words of the messages msgs, message after message. */
  function NoteTokens(msgs: seq<Message>): seq<string>
    decreases |msgs|
  {
    if msgs == [] then [] else NoteTokens(msgs[..|msgs| - 1]) + SplitWords(msgs[|msgs| - 1].content)
  }

  /** The words of all messages of all notes, in the order the nested loops visit them. */
  function AllTokens(notes: seq<Note>): seq<string>
    decreases |notes|
  {
    if notes == [] then [] else AllTokens(notes[..|notes| - 1]) + NoteTokens(notes[|notes| - 1].messages)
  }

  /** How often w occurs in toks. */
  function Occ(w: string, toks: seq<string>): nat
    decreases |toks|
  {
    if toks == [] then 0 else Occ(w, toks[..|toks| - 1]) + (if toks[|toks| - 1] == w then 1 else 0)
  }

  /** The keys of the tally Map: the eligible words of toks, in order of first occurrence. */
  function KeysOf(toks: seq<string>): seq<string>
    decreases |toks|
  {
    if toks == [] then []
    else
      var keys := KeysOf(toks[..|toks| - 1]);
      var t := toks[|toks| - 1];
      if Eligible(t) && t !in keys then keys + [t] else keys
  }

  predicate DistinctWords(ws: seq<string>) {
    forall i, j :: 0 <= i < j < |ws| ==> ws[i] != ws[j]
  }

  /** The keys are exactly the eligible words that occur, each once. */
  lemma {:induction false} KeysOfSpec(toks: seq<string>)
    ensures forall w :: w in KeysOf(toks) <==> Eligible(w) && Occ(w, toks) > 0
    ensures DistinctWords(KeysOf(toks))
    decreases |toks|
  {
    if toks != [] {
      KeysOfSpec(toks[..|toks| - 1]);
    }
  }

  /** The tally agrees with the words seen so far. */
  ghost predicate Tallied(keys: seq<string>, counts: map<string, nat>, seen: seq<string>) {
    && keys == KeysOf(seen)
    && (forall w :: w in counts <==> w in keys)
    && (forall w :: w in counts ==> counts[w] == Occ(w, seen))
  }

  lemma TallyStep(keys: seq<string>, counts: map<string, nat>, seen: seq<string>, t: string)
    requires Tallied(keys, counts, seen)
    ensures Eligible(t) && t in counts ==>
              Tallied(keys, counts[t := counts[t] + 1], seen + [t])
    ensures Eligible(t) && t !in counts ==>
              Tallied(keys + [t], counts[t := 1], seen + [t])
    ensures !Eligible(t) ==> Tallied(keys, counts, seen + [t])
  {
    var st := seen + [t];
    assert st[..|seen|] == seen && st[|seen|] == t;
    assert KeysOf(st) == if Eligible(t) && t !in KeysOf(seen) then KeysOf(seen) + [t] else KeysOf(seen);
    assert forall w :: Occ(w, st) == Occ(w, seen) + (if w == t then 1 else 0);
    if Eligible(t) && t in counts {
      var c := counts[t := counts[t] + 1];
      assert forall w :: w in c ==> c[w] == Occ(w, st);
    } else if Eligible(t) {
      var c := counts[t := 1];
      assert Occ(t, seen) == 0 by { KeysOfSpec(seen); }
      assert forall w :: w in c <==> w in keys + [t];
      assert forall w :: w in c ==> c[w] == Occ(w, st);
    } else {
      KeysOfSpec(seen);
    }
  }

  /** One entry of the tally Map as Array.from lists it. */
  datatype Entry = Entry(word: string, count: nat)

  /** The tally's entries in insertion order. */
  function EntriesOf(keys: seq<string>, counts: map<string, nat>): (es: seq<Entry>)
    requires forall w :: w in keys ==> w in counts
    ensures |es| == |keys|
    ensures forall i :: 0 <= i < |es| ==> es[i] == Entry(keys[i], counts[keys[i]])
    decreases |keys|
  {
    if keys == [] then [] else [Entry(keys[0], counts[keys[0]])] + EntriesOf(keys[1..], counts)
  }

  /** The entries the tally reaches after all of toks. */
  function TokenEntries(toks: seq<string>): (es: seq<Entry>)
    ensures |es| == |KeysOf(toks)|
    ensures forall i :: 0 <= i < |es| ==> es[i] == Entry(KeysOf(toks)[i], Occ(KeysOf(toks)[i], toks))
  {
    var keys := KeysOf(toks);
    seq(|keys|, i requires 0 <= i < |keys| => Entry(keys[i], Occ(keys[i], toks)))
  }

  // ---------------------------------------------------------------------
  // Sorting by count
  // ---------------------------------------------------------------------

  /** Place x in front of the first entry whose count it reaches. */
  function Insert(x: Entry, ys: seq<Entry>): (r: seq<Entry>)
    ensures multiset(r) == multiset(ys) + multiset{x}
    decreases |ys|
  {
    if ys == [] || ys[0].count <= x.count then [x] + ys
    else
      assert ys == [ys[0]] + ys[1..];
      [ys[0]] + Insert(x, ys[1..])
  }

  /**
   * Array.prototype.sort with the comparator b.count - a.count: a stable sort
   * by count, highest first. Written as an insertion sort.
   */
  function SortByCount(xs: seq<Entry>): (r: seq<Entry>)
    ensures multiset(r) == multiset(xs)
    decreases |xs|
  {
    if xs == [] then []
    else
      assert xs == [xs[0]] + xs[1..];
      Insert(xs[0], SortByCount(xs[1..]))
  }

  predicate NonIncreasing(es: seq<Entry>) {
    forall i, j :: 0 <= i < j < |es| ==> es[i].count >= es[j].count
  }

  /** The entries with count c, in order. */
  function WithCount(es: seq<Entry>, c: nat): seq<Entry>
    decreases |es|
  {
    if es == [] then [] else (if es[0].count == c then [es[0]] else []) + WithCount(es[1..], c)
  }

  /** Each entry counts at least as much as the next one. */
  predicate Descending(es: seq<Entry>)
    decreases |es|
  {
    |es| <= 1 || (es[0].count >= es[1].count && Descending(es[1..]))
  }

  lemma {:induction false} DescendingNonIncreasing(es: seq<Entry>)
    requires Descending(es)
    ensures NonIncreasing(es)
    decreases |es|
  {
    if |es| > 1 {
      DescendingNonIncreasing(es[1..]);
      forall i, j | 0 <= i < j < |es| ensures es[i].count >= es[j].count {
        if i > 0 {
          assert es[i] == es[1..][i - 1] && es[j] == es[1..][j - 1];
        } else if j > 1 {
          assert es[1] == es[1..][0] && es[j] == es[1..][j - 1];
        }
      }
    }
  }

  lemma {:induction false} InsertSorted(x: Entry, ys: seq<Entry>)
    requires Descending(ys)
    ensures Descending(Insert(x, ys))
    ensures Insert(x, ys)[0] == x || (ys != [] && Insert(x, ys)[0] == ys[0])
    decreases |ys|
  {
    if ys != [] && ys[0].count > x.count {
      InsertSorted(x, ys[1..]);
      var r := Insert(x, ys[1..]);
      var full := [ys[0]] + r;
      assert full[1..] == r;
      if |ys| > 1 {
        assert ys[1..][0] == ys[1];
      }
    } else {
      var full := [x] + ys;
      assert full[1..] == ys;
    }
  }

  lemma {:induction false} InsertStable(x: Entry, ys: seq<Entry>, c: nat)
    ensures WithCount(Insert(x, ys), c) == (if x.count == c then [x] else []) + WithCount(ys, c)
    decreases |ys|
  {
    if ys != [] && ys[0].count > x.count {
      InsertStable(x, ys[1..], c);
      var r := Insert(x, ys[1..]);
      var full := [ys[0]] + r;
      assert full[0] == ys[0] && full[1..] == r;
      assert WithCount(full, c) == (if ys[0].count == c then [ys[0]] else []) + WithCount(r, c);
      assert WithCount(ys, c) == (if ys[0].count == c then [ys[0]] else []) + WithCount(ys[1..], c);
    } else {
      var full := [x] + ys;
      assert full[0] == x && full[1..] == ys;
    }
  }

  lemma {:induction false} SortByCountDescending(xs: seq<Entry>)
    ensures Descending(SortByCount(xs))
    decreases |xs|
  {
    if xs != [] {
      SortByCountDescending(xs[1..]);
      InsertSorted(xs[0], SortByCount(xs[1..]));
    }
  }

  /** The sort orders by count, highest first. */
  lemma SortByCountSorted(xs: seq<Entry>)
    ensures NonIncreasing(SortByCount(xs))
  {
    SortByCountDescending(xs);
    DescendingNonIncreasing(SortByCount(xs));
  }

  /** The sort is stable: the entries of any one count keep their relative order. */
  lemma {:induction false} SortByCountStable(xs: seq<Entry>, c: nat)
    ensures WithCount(SortByCount(xs), c) == WithCount(xs, c)
    decreases |xs|
  {
    if xs != [] {
      SortByCountStable(xs[1..], c);
      InsertStable(xs[0], SortByCount(xs[1..]), c);
    }
  }

  // ---------------------------------------------------------------------
  // The keyword cloud
  // ---------------------------------------------------------------------

  /** A tag of the cloud. */
  datatype Keyword = Keyword(word: string, count: nat, size: real)

  /** The font scale of a tag: 1 plus 0.2 per occurrence, capped at 2. */
  function TagSize(count: nat): (r: real)
    ensures 1.0 <= r <= 2.0
    ensures r == 2.0 <==> count >= 5
  {
    var s := 1.0 + count as real * 0.2;
    if s < 2.0 then s else 2.0
  }

  /** The tags for the first (up to) twenty sorted entries. */
  function Cloud(es: seq<Entry>): (ks: seq<Keyword>)
    ensures |ks| == |es|
    ensures forall i :: 0 <= i < |ks| ==>
              ks[i].word == es[i].word && ks[i].count == es[i].count && ks[i].size == TagSize(es[i].count)
    decreases |es|
  {
    if es == [] then [] else [Keyword(es[0].word, es[0].count, TagSize(es[0].count))] + Cloud(es[1..])
  }

  function Take<T>(s: seq<T>, n: nat): (r: seq<T>)
    ensures |r| <= n && (|s| <= n ==> r == s) && (|s| > n ==> r == s[..n])
  {
    if |s| <= n then s else s[..n]
  }

  /** The keyword cloud of a list of notes: top twenty eligible words by count. */
  function KeywordCloud(notes: seq<Note>): seq<Keyword> {
    TopCloud(TokenEntries(AllTokens(notes)))
  }

  /** The tally's final entries: one per eligible word that occurs, with its exact count. */
  lemma TokenEntriesSpec(toks: seq<string>)
    ensures var es := TokenEntries(toks);
            forall a, b :: 0 <= a < b < |es| ==> es[a].word != es[b].word
    ensures forall e :: e in TokenEntries(toks) <==> Eligible(e.word) && Occ(e.word, toks) > 0 && e.count == Occ(e.word, toks)
  {
    var es := TokenEntries(toks);
    var keys := KeysOf(toks);
    KeysOfSpec(toks);
    forall e ensures e in es <==> Eligible(e.word) && Occ(e.word, toks) > 0 && e.count == Occ(e.word, toks) {
      if e in es {
        var k :| 0 <= k < |es| && es[k] == e;
        assert keys[k] in keys;
      }
      if Eligible(e.word) && Occ(e.word, toks) > 0 && e.count == Occ(e.word, toks) {
        var k :| 0 <= k < |keys| && keys[k] == e.word;
        assert es[k] == e;
      }
    }
  }

  /** The entries of a permutation are the entries of the original. */
  lemma PermutationMembers(sorted: seq<Entry>, es: seq<Entry>)
    requires multiset(sorted) == multiset(es)
    ensures forall e :: e in sorted <==> e in es
  {
    forall e ensures e in sorted <==> e in es {
      assert e in sorted <==> e in multiset(sorted);
    }
  }

  /** A permutation of entries with distinct words has distinct words too. */
  lemma PermutationDistinctWords(sorted: seq<Entry>, es: seq<Entry>)
    requires multiset(sorted) == multiset(es)
    requires forall a, b :: 0 <= a < b < |es| ==> es[a].word != es[b].word
    ensures forall i, j :: 0 <= i < j < |sorted| ==> sorted[i].word != sorted[j].word
  {
    PermutationMembers(sorted, es);
    forall i, j | 0 <= i < j < |sorted| ensures sorted[i].word != sorted[j].word {
      if sorted[i].word == sorted[j].word {
        assert sorted[i] in sorted && sorted[j] in sorted;
        var a :| 0 <= a < |es| && es[a] == sorted[i];
        var b :| 0 <= b < |es| && es[b] == sorted[j];
        assert a == b;
        SortedDistinct(sorted, es, i, j);
      }
    }
  }

  /**
   * An entry missing from the first twenty of a sorted permutation: all
   * twenty places went to entries counted at least as often.
   */
  lemma TopOmitsOnlyLesser(sorted: seq<Entry>, es: seq<Entry>, e: Entry)
    requires multiset(sorted) == multiset(es) && NonIncreasing(sorted)
    requires e in es && forall i :: 0 <= i < |Take(sorted, 20)| ==> Take(sorted, 20)[i].word != e.word
    ensures |Take(sorted, 20)| == 20 && forall i :: 0 <= i < 20 ==> Take(sorted, 20)[i].count >= e.count
  {
    var top := Take(sorted, 20);
    PermutationMembers(sorted, es);
    assert e in sorted;
    var m :| 0 <= m < |sorted| && sorted[m] == e;
    assert forall i :: 0 <= i < |top| ==> top[i] == sorted[i];
    assert m >= |top|;
  }

  /** The tags of the first twenty sorted entries. */
  function TopCloud(es: seq<Entry>): seq<Keyword> {
    Cloud(Take(SortByCount(es), 20))
  }

  /** Every tag is one of the entries, with its size capped at 2. */
  lemma TopCloudFromEntries(es: seq<Entry>)
    ensures |TopCloud(es)| <= 20
    ensures forall i :: 0 <= i < |TopCloud(es)| ==>
              Entry(TopCloud(es)[i].word, TopCloud(es)[i].count) in es && TopCloud(es)[i].size == TagSize(TopCloud(es)[i].count)
  {
    var sorted := SortByCount(es);
    var top := Take(sorted, 20);
    PermutationMembers(sorted, es);
    var ks := Cloud(top);
    assert forall i :: 0 <= i < |ks| ==> Entry(ks[i].word, ks[i].count) == top[i] && top[i] == sorted[i];
  }

  /** No word is shown twice, and the tags come highest count first. */
  lemma TopCloudOrdered(es: seq<Entry>)
    requires forall a, b :: 0 <= a < b < |es| ==> es[a].word != es[b].word
    ensures forall i, j :: 0 <= i < j < |TopCloud(es)| ==>
              TopCloud(es)[i].word != TopCloud(es)[j].word && TopCloud(es)[i].count >= TopCloud(es)[j].count
  {
    var sorted := SortByCount(es);
    var top := Take(sorted, 20);
    SortByCountSorted(es);
    PermutationDistinctWords(sorted, es);
    assert forall i :: 0 <= i < |top| ==> top[i] == sorted[i];
  }

  /** An entry without a tag means twenty tags, each counted at least as often. */
  lemma TopCloudOmitsOnlyLesser(es: seq<Entry>, e: Entry)
    requires e in es && forall i :: 0 <= i < |TopCloud(es)| ==> TopCloud(es)[i].word != e.word
    ensures |TopCloud(es)| == 20 && forall i :: 0 <= i < |TopCloud(es)| ==> TopCloud(es)[i].count >= e.count
  {
    var sorted := SortByCount(es);
    SortByCountSorted(es);
    assert forall i :: 0 <= i < |Take(sorted, 20)| ==> TopCloud(es)[i].word == Take(sorted, 20)[i].word;
    TopOmitsOnlyLesser(sorted, es, e);
  }

  /**
   * What the cloud shows: at most twenty distinct eligible words, each with
   * its exact number of occurrences (at least one) and a size of at most 2.
   */
  lemma KeywordCloudCounts(notes: seq<Note>)
    ensures |KeywordCloud(notes)| <= 20
    ensures forall i :: 0 <= i < |KeywordCloud(notes)| ==>
              var k := KeywordCloud(notes)[i];
              && Eligible(k.word) && k.count == Occ(k.word, AllTokens(notes)) && k.count >= 1
              && k.size == TagSize(k.count) && k.size <= 2.0
  {
    var toks := AllTokens(notes);
    TokenEntriesSpec(toks);
    TopCloudFromEntries(TokenEntries(toks));
  }

  /** The cloud lists each word once, highest count first. */
  lemma KeywordCloudOrdered(notes: seq<Note>)
    ensures forall i, j :: 0 <= i < j < |KeywordCloud(notes)| ==>
              && KeywordCloud(notes)[i].word != KeywordCloud(notes)[j].word
              && KeywordCloud(notes)[i].count >= KeywordCloud(notes)[j].count
  {
    var toks := AllTokens(notes);
    TokenEntriesSpec(toks);
    TopCloudOrdered(TokenEntries(toks));
  }

  /**
   * The cloud is a top twenty: an eligible word that occurs but is not shown
   * occurs no more often than any shown word, and all twenty places are taken.
   */
  lemma KeywordCloudTop(notes: seq<Note>, w: string)
    requires Eligible(w) && Occ(w, AllTokens(notes)) > 0
    requires forall i :: 0 <= i < |KeywordCloud(notes)| ==> KeywordCloud(notes)[i].word != w
    ensures |KeywordCloud(notes)| == 20
    ensures forall i :: 0 <= i < |KeywordCloud(notes)| ==> KeywordCloud(notes)[i].count >= Occ(w, AllTokens(notes))
  {
    var toks := AllTokens(notes);
    TokenEntriesSpec(toks);
    assert KeywordCloud(notes) == TopCloud(TokenEntries(toks));
    assert Entry(w, Occ(w, toks)) in TokenEntries(toks);
    TopCloudOmitsOnlyLesser(TokenEntries(toks), Entry(w, Occ(w, toks)));
  }

  /** A permutation of a list of distinct entries has no entry twice. */
  lemma SortedDistinct(sorted: seq<Entry>, es: seq<Entry>, i: nat, j: nat)
    requires multiset(sorted) == multiset(es)
    requires forall a, b :: 0 <= a < b < |es| ==> es[a] != es[b]
    requires i < j < |sorted|
    ensures sorted[i] != sorted[j]
  {
    if sorted[i] == sorted[j] {
      var x := sorted[i];
      assert multiset(sorted)[x] >= 2 by {
        assert sorted == sorted[..i] + [x] + sorted[i + 1..j] + [x] + sorted[j + 1..];
      }
      DistinctOnce(es, x);
    }
  }

  lemma {:induction false} DistinctOnce(es: seq<Entry>, x: Entry)
    requires forall a, b :: 0 <= a < b < |es| ==> es[a] != es[b]
    ensures multiset(es)[x] <= 1
    decreases |es|
  {
    if es != [] {
      DistinctOnce(es[1..], x);
      assert es == [es[0]] + es[1..];
      if es[0] == x {
        assert x !in es[1..];
      }
    }
  }

  /**
   * extractKeywords: tally the eligible words of every message of every note
   * in a Map, then list its entries sorted by count, keep the first twenty and
   * give each its tag size.
   */
  method ExtractKeywords(notes: seq<Note>) returns (keywords: seq<Keyword>)
    ensures keywords == KeywordCloud(notes)
  {
    var keys: seq<string> := [];
    var counts: map<string, nat> := map[];
    var n := 0;
    while n < |notes|
      invariant 0 <= n <= |notes|
      invariant Tallied(keys, counts, AllTokens(notes[..n]))
    {
      AllTokensSnoc(notes, n);
      keys, counts := TallyNote(keys, counts, notes[n].messages, AllTokens(notes[..n]));
      n := n + 1;
    }
    assert notes[..n] == notes;
    var toks := AllTokens(notes);
    var entries := EntriesOf(keys, counts);
    assert entries == TokenEntries(toks);
    keywords := Cloud(Take(SortByCount(entries), 20));
    assert keywords == TopCloud(entries);
  }

  /** The note.messages.forEach callback: tally the words of each message of one note. */
  method TallyNote(keys: seq<string>, counts: map<string, nat>, msgs: seq<Message>, ghost seen: seq<string>)
    returns (keys': seq<string>, counts': map<string, nat>)
    requires Tallied(keys, counts, seen)
    ensures Tallied(keys', counts', seen + NoteTokens(msgs))
  {
    keys', counts' := keys, counts;
    var m := 0;
    assert seen + NoteTokens(msgs[..0]) == seen;
    while m < |msgs|
      invariant 0 <= m <= |msgs|
      invariant Tallied(keys', counts', seen + NoteTokens(msgs[..m]))
    {
      NoteTokensSnoc(seen, msgs, m);
      keys', counts' := TallyWords(keys', counts', SplitWords(msgs[m].content), seen + NoteTokens(msgs[..m]));
      m := m + 1;
    }
    assert msgs[..m] == msgs;
  }

  lemma NoteTokensSnoc(seen: seq<string>, msgs: seq<Message>, m: nat)
    requires m < |msgs|
    ensures seen + NoteTokens(msgs[..m + 1]) == (seen + NoteTokens(msgs[..m])) + SplitWords(msgs[m].content)
  {
    assert msgs[..m + 1][..m] == msgs[..m];
  }

  lemma AllTokensSnoc(notes: seq<Note>, n: nat)
    requires n < |notes|
    ensures AllTokens(notes[..n + 1]) == AllTokens(notes[..n]) + NoteTokens(notes[n].messages)
  {
    assert notes[..n + 1][..n] == notes[..n];
  }

  /** The words.forEach callback: count every eligible word of one message. */
  method TallyWords(keys: seq<string>, counts: map<string, nat>, words: seq<string>, ghost seen: seq<string>)
    returns (keys': seq<string>, counts': map<string, nat>)
    requires Tallied(keys, counts, seen)
    ensures Tallied(keys', counts', seen + words)
  {
    keys', counts' := keys, counts;
    var i := 0;
    assert seen + words[..0] == seen;
    while i < |words|
      invariant 0 <= i <= |words|
      invariant Tallied(keys', counts', seen + words[..i])
    {
      var word := words[i];
      TallyStep(keys', counts', seen + words[..i], word);
      assert seen + words[..i + 1] == (seen + words[..i]) + [word];
      if |word| >= 2 && word !in CommonWords {
        if word in counts' {
          counts' := counts'[word := counts'[word] + 1];
        } else {
          keys' := keys' + [word];
          counts' := counts'[word := 1];
        }
      }
      i := i + 1;
    }
    assert words[..i] == words;
  }

  // ---------------------------------------------------------------------
  // The typing animation
  // ---------------------------------------------------------------------

  /** A message as the animation shows it: displayContent is what is typed so far. */
  datatype TypingMessage = TypingMessage(id: string, content: string, displayContent: string, isComplete: bool)

  /** The animation state: the messages and the index of the one being typed. */
  datatype Typing = Typing(messages: seq<TypingMessage>, index: nat)

  /** The first note with the given id. */
  function FindNote(notes: seq<Note>, id: string): (r: Option<Note>)
    ensures r.Some? <==> exists i :: 0 <= i < |notes| && notes[i].id == id
    ensures r.Some? ==> exists i :: 0 <= i < |notes| && notes[i] == r.value && notes[i].id == id
                                    && forall k :: 0 <= k < i ==> notes[k].id != id
    decreases |notes|
  {
    if notes == [] then None
    else if notes[0].id == id then Some(notes[0])
    else
      var r := FindNote(notes[1..], id);
      if r.Some? then
        var i :| 0 <= i < |notes[1..]| && notes[1..][i] == r.value && notes[1..][i].id == id
                 && forall k :: 0 <= k < i ==> notes[1..][k].id != id;
        assert notes[i + 1] == r.value;
        r
      else r
  }

  /** The note shown for a selection; the empty id is falsy and selects nothing. */
  function SelectedNote(notes: seq<Note>, selected: Option<string>): Option<Note> {
    if selected.None? || selected.value == "" then None else FindNote(notes, selected.value)
  }

  /** The reset effect: a fresh, untyped copy of every message, or nothing when no note is shown. */
  function Reset(note: Option<Note>): (t: Typing)
    ensures t.index == 0
    ensures note.None? ==> t.messages == []
    ensures note.Some? ==> |t.messages| == |note.value.messages|
    ensures note.Some? ==> forall i :: 0 <= i < |t.messages| ==>
              t.messages[i] == TypingMessage(note.value.messages[i].id, note.value.messages[i].content, "", false)
  {
    if note.None? then Typing([], 0)
    else
      var msgs := note.value.messages;
      Typing(seq(|msgs|, i requires 0 <= i < |msgs| => TypingMessage(msgs[i].id, msgs[i].content, "", false)), 0)
  }

  /**
   * One run of the step effect. Nothing happens when there are no messages or
   * all are done; a complete current message moves the index on; otherwise the
   * current message shows one more character, or, fully shown, is marked complete.
   */
  function TypingStep(t: Typing): (r: Typing)
    ensures |r.messages| == |t.messages|
    ensures t.index >= |t.messages| ==> r == t
    ensures t.index < |t.messages| && t.messages[t.index].isComplete ==>
              r == t.(index := t.index + 1)
    ensures t.index < |t.messages| && !t.messages[t.index].isComplete ==>
              && r.index == t.index
              && (forall k :: 0 <= k < |t.messages| && k != t.index ==> r.messages[k] == t.messages[k])
  {
    if |t.messages| == 0 || t.index >= |t.messages| then t
    else
      var m := t.messages[t.index];
      if m.isComplete then t.(index := t.index + 1)
      else if |m.displayContent| < |m.content| then
        var shown := m.content[..|m.displayContent| + 1];
        t.(messages := t.messages[t.index := m.(displayContent := shown)])
      else
        t.(messages := t.messages[t.index := m.(isComplete := true)])
  }

  /** The current message either grows by a character of its content or, typed out, becomes complete. */
  lemma TypingStepReveals(t: Typing)
    requires t.index < |t.messages| && !t.messages[t.index].isComplete
    requires var m := t.messages[t.index]; m.displayContent <= m.content
    ensures var m := t.messages[t.index];
            var m' := TypingStep(t).messages[t.index];
            && m'.id == m.id && m'.content == m.content
            && (|m.displayContent| < |m.content| ==>
                  m'.displayContent == m.content[..|m.displayContent| + 1] && !m'.isComplete)
            && (|m.displayContent| >= |m.content| ==> m'.displayContent == m.displayContent && m'.isComplete)
  {
  }

  /**
   * The animation invariant: every display is a prefix of its content; the
   * messages before the index are fully typed and complete; the ones after it
   * are untouched; a complete message is fully typed.
   */
  ghost predicate TypingValid(t: Typing) {
    && t.index <= |t.messages|
    && (forall k :: 0 <= k < |t.messages| ==> t.messages[k].displayContent <= t.messages[k].content)
    && (forall k :: 0 <= k < |t.messages| && t.messages[k].isComplete ==>
          t.messages[k].displayContent == t.messages[k].content)
    && (forall k :: 0 <= k < t.index ==> t.messages[k].isComplete)
    && (forall k :: t.index < k < |t.messages| ==> t.messages[k].displayContent == [] && !t.messages[k].isComplete)
  }

  lemma ResetValid(note: Option<Note>)
    ensures TypingValid(Reset(note))
  {
  }

  /** A step keeps the animation invariant, and changes no id or content. */
  lemma TypingStepValid(t: Typing)
    requires TypingValid(t)
    ensures TypingValid(TypingStep(t))
    ensures forall k :: 0 <= k < |t.messages| ==>
              TypingStep(t).messages[k].id == t.messages[k].id
              && TypingStep(t).messages[k].content == t.messages[k].content
  {
    var r := TypingStep(t);
    if t.index < |t.messages| && !t.messages[t.index].isComplete {
      var m := t.messages[t.index];
      if |m.displayContent| < |m.content| {
        assert m.displayContent == m.content[..|m.displayContent|];
        assert r.messages[t.index].displayContent <= m.content;
      }
    }
  }

  /** Work left: characters still to type, completions still to mark, indices still to pass. */
  function Pending(ms: seq<TypingMessage>): nat
    decreases |ms|
  {
    if ms == [] then 0
    else
      var m := ms[|ms| - 1];
      Pending(ms[..|ms| - 1]) + (if |m.displayContent| < |m.content| then |m.content| - |m.displayContent| else 0)
                              + (if m.isComplete then 0 else 1)
  }

  function Measure(t: Typing): nat {
    Pending(t.messages) + (if t.index <= |t.messages| then |t.messages| - t.index else 0)
  }

  lemma {:induction false} PendingUpdate(ms: seq<TypingMessage>, i: nat, m: TypingMessage)
    requires i < |ms|
    ensures Pending(ms[i := m]) + Pending([ms[i]]) == Pending(ms) + Pending([m])
    decreases |ms|
  {
    var n := |ms| - 1;
    assert ms[i := m][..n] == if i == n then ms[..n] else ms[..n][i := m];
    if i < n {
      PendingUpdate(ms[..n], i, m);
    }
  }

  /**
   * Every step that is not a no-op strictly lowers the measure, so the
   * animation reaches the state where the index has passed every message.
   */
  lemma TypingStepDecreases(t: Typing)
    requires TypingValid(t) && t.index < |t.messages|
    ensures Measure(TypingStep(t)) < Measure(t)
  {
    var m := t.messages[t.index];
    if !m.isComplete {
      var r := TypingStep(t);
      PendingUpdate(t.messages, t.index, r.messages[t.index]);
    }
  }

  /** Once the index has passed every message, all messages are complete and fully typed. */
  lemma TypingDone(t: Typing)
    requires TypingValid(t) && t.index == |t.messages|
    ensures TypingStep(t) == t
    ensures forall k :: 0 <= k < |t.messages| ==>
              t.messages[k].isComplete && t.messages[k].displayContent == t.messages[k].content
  {
  }

  /** The "i / n" counter under the conversation: min(index + 1, n), or 0 without a note. */
  function ProgressLabel(t: Typing, note: Option<Note>): (shown: nat)
    ensures note.None? ==> shown == 0
    ensures note.Some? ==> shown <= |note.value.messages|
    ensures note.Some? && t.index < |note.value.messages| ==> shown == t.index + 1
    ensures note.Some? && t.index >= |note.value.messages| ==> shown == |note.value.messages|
  {
    var n := if note.Some? then |note.value.messages| else 0;
    if t.index + 1 < n then t.index + 1 else n
  }

  /**
   * While a note is shown and its animation state is valid, the counter
   * lies between 1 and the number of messages.
   */
  lemma ProgressLabelRange(t: Typing, note: Note)
    requires TypingValid(t) && |t.messages| == |note.messages| > 0
    ensures 1 <= ProgressLabel(t, Some(note)) <= |note.messages|
  {
  }
}
