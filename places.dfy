/** The knowledge base of places and `buscar_lugar_en_json`: resolving a free
    text query to a place by a direct substring pass, a fuzzy pass and a
    word-subset pass, the first pass that succeeds deciding. */
module Places {
  import opened Optional
  import opened Text

  /** The JSON keys the bot reads from a place. */
  const FieldNames: set<string> := {"nombre", "descripcion", "como_llegar", "horarios", "actividades"}

  /** One entry of the places file. Each field is `None` when the key is
      absent from the JSON object; `otherKeys` holds any further keys, which
      matter only to the emptiness test `if info:`. */
  datatype RecordData = Record(
    nombre: Option<string>,
    descripcion: Option<string>,
    comoLlegar: Option<string>,
    horarios: Option<string>,
    actividades: Option<seq<string>>,
    otherKeys: set<string>)
  {
    /** The dict has no keys at all: Python treats it as false. */
    predicate IsEmpty() {
      && nombre.None? && descripcion.None? && comoLlegar.None?
      && horarios.None? && actividades.None? && otherKeys == {}
    }
  }

  /** A JSON object: a key the bot reads is never also counted among the
      other keys. */
  type Record = r: RecordData | r.otherKeys !! FieldNames
    witness Record(None, None, None, None, None, {})

  type Entry = (string, Record)

  /** Keys of a Python dict are distinct. */
  predicate KeysDistinct(entries: seq<Entry>) {
    forall i, j :: 0 <= i < j < |entries| ==> entries[i].0 != entries[j].0
  }

  /** `LUGARES_DATA`: the places in insertion order. A missing file gives []. */
  type KnowledgeBase = entries: seq<Entry> | KeysDistinct(entries) witness []

  /** `list(LUGARES_DATA.keys())`. */
  function Keys(entries: seq<Entry>): (keys: seq<string>)
    ensures |keys| == |entries|
    ensures forall i :: 0 <= i < |entries| ==> keys[i] == entries[i].0
  {
    seq(|entries|, i requires 0 <= i < |entries| => entries[i].0)
  }

  /** The position of key `k`. */
  function IndexOf(entries: seq<Entry>, k: string): (i: nat)
    requires k in Keys(entries)
    ensures i < |entries| && entries[i].0 == k
    ensures forall j :: 0 <= j < i ==> entries[j].0 != k
  {
    if entries[0].0 == k then 0
    else
      assert Keys(entries[1..]) == Keys(entries)[1..];
      1 + IndexOf(entries[1..], k)
  }

  /** `LUGARES_DATA[k]`. */
  function ValueOf(kb: KnowledgeBase, k: string): Record
    requires k in Keys(kb)
  {
    kb[IndexOf(kb, k)].1
  }

  lemma ValueOfAt(kb: KnowledgeBase, i: nat)
    requires i < |kb|
    ensures kb[i].0 in Keys(kb) && ValueOf(kb, kb[i].0) == kb[i].1
  {
    assert Keys(kb)[i] == kb[i].0;
  }

  // ---------------------------------------------------------------------
  // A `for` loop that returns on the first hit.

  /** The index of the first element satisfying `p`, if any. */
  function FirstWhere<T>(xs: seq<T>, p: T -> bool): (r: Option<nat>)
    ensures r.Some? ==> r.value < |xs| && p(xs[r.value])
    ensures r.Some? ==> forall j :: 0 <= j < r.value ==> !p(xs[j])
    ensures r.None? <==> forall j :: 0 <= j < |xs| ==> !p(xs[j])
  {
    if xs == [] then None
    else if p(xs[0]) then Some(0)
    else match FirstWhere(xs[1..], p)
      case None => None
      case Some(i) => Some(i + 1)
  }

  // ---------------------------------------------------------------------
  // The three passes, on the normalised query `texto`.

  /** Pass 1: the key, or the lower-cased `nombre` (default ""), is in the
      query. An entry without `nombre` contributes "", found in every query. */
  predicate DirectHit(e: Entry, texto: string) {
    Contains(e.0, texto) || Contains(Lower(e.1.nombre.GetOr("")), texto)
  }

  function DirectPass(entries: seq<Entry>, texto: string): Option<nat> {
    FirstWhere(entries, e => DirectHit(e, texto))
  }

  /** The cutoff given to `difflib.get_close_matches`. */
  const Cutoff: real := 0.6

  /** `difflib.SequenceMatcher(None, candidate, query).ratio()`, supplied by
      the caller: the similarity itself is not part of this model. */
  type Ratio = (string, string) -> real

  /** `(ratio(x), x) > (ratio(y), y)` as Python compares tuples. */
  predicate Outranks(ratio: Ratio, texto: string, x: string, y: string) {
    ratio(x, texto) > ratio(y, texto)
    || (ratio(x, texto) == ratio(y, texto) && StrLess(y, x))
  }

  /** Pass 2, `get_close_matches(texto, claves, n=1, cutoff=0.6)`: of the
      keys whose ratio reaches the cutoff, the one with the largest
      `(ratio, key)` tuple, as `heapq.nlargest` selects it. */
  function ClosestKey(ratio: Ratio, texto: string, keys: seq<string>): (r: Option<string>)
    ensures r.None? <==> forall k :: k in keys ==> ratio(k, texto) < Cutoff
    ensures r.Some? ==> r.value in keys && ratio(r.value, texto) >= Cutoff
    ensures r.Some? ==> forall k :: k in keys && ratio(k, texto) >= Cutoff ==>
      !Outranks(ratio, texto, k, r.value)
  {
    if keys == [] then None
    else
      var k := keys[0];
      var rest := ClosestKey(ratio, texto, keys[1..]);
      assert forall x :: x in keys <==> x == k || x in keys[1..];
      if ratio(k, texto) < Cutoff then rest
      else match rest
        case None =>
          StrLessIrreflexive(k);
          Some(k)
        case Some(b) =>
          if Outranks(ratio, texto, k, b) then
            OutranksMaximum(ratio, texto, keys[1..], k, b);
            StrLessIrreflexive(k);
            Some(k)
          else
            Some(b)
  }

  /** If `k` outranks the best of `keys`, it outranks or equals all of them. */
  lemma OutranksMaximum(ratio: Ratio, texto: string, keys: seq<string>, k: string, b: string)
    requires Outranks(ratio, texto, k, b)
    requires forall x :: x in keys && ratio(x, texto) >= Cutoff ==> !Outranks(ratio, texto, x, b)
    ensures forall x :: x in keys && ratio(x, texto) >= Cutoff ==> !Outranks(ratio, texto, x, k)
  {
    forall x | x in keys && ratio(x, texto) >= Cutoff
      ensures !Outranks(ratio, texto, x, k)
    {
      if Outranks(ratio, texto, x, k) && ratio(x, texto) == ratio(k, texto) == ratio(b, texto) {
        StrLessTransitive(b, k, x);
      }
    }
  }

  /** Pass 3: every whitespace-separated word of the key is in the query
      (`all([])` holds, so a blank key always passes). */
  predicate WordsHit(k: string, texto: string) {
    AllIn(Split(k), texto)
  }

  function WordsPass(keys: seq<string>, texto: string): Option<nat> {
    FirstWhere(keys, k => WordsHit(k, texto))
  }

  // ---------------------------------------------------------------------
  // The lookup

  /** Which pass decided a lookup. */
  datatype Decision = ByDirect(index: nat) | ByFuzzy(key: string) | ByWords(index: nat) | NoMatch

  function Decide(kb: KnowledgeBase, ratio: Ratio, texto: string): (d: Decision)
    ensures d.ByDirect? ==> d.index < |kb|
    ensures d.ByFuzzy? ==> d.key in Keys(kb)
    ensures d.ByWords? ==> d.index < |kb|
  {
    match DirectPass(kb, texto)
    case Some(i) => ByDirect(i)
    case None =>
      match ClosestKey(ratio, texto, Keys(kb))
      case Some(k) => ByFuzzy(k)
      case None =>
        match WordsPass(Keys(kb), texto)
        case Some(i) => ByWords(i)
        case None => NoMatch
  }

  /** The passes on the normalised query `q`: `(clave, info)` or
      `(None, None)`. Every hit is an entry of the knowledge base, and its
      record is the one the dict holds under its key. */
  function Resolve(kb: KnowledgeBase, ratio: Ratio, q: string): (r: Option<Entry>)
    ensures r.Some? ==> r.value in kb
    ensures r.Some? ==> r.value.0 in Keys(kb) && r.value.1 == ValueOf(kb, r.value.0)
  {
    match Decide(kb, ratio, q)
    case ByDirect(i) =>
      ValueOfAt(kb, i);
      Some(kb[i])
    case ByFuzzy(k) =>
      assert kb[IndexOf(kb, k)] == (k, ValueOf(kb, k));
      Some((k, ValueOf(kb, k)))
    case ByWords(i) =>
      ValueOfAt(kb, i);
      assert kb[i] == (kb[i].0, ValueOf(kb, kb[i].0));
      Some((kb[i].0, ValueOf(kb, kb[i].0)))
    case NoMatch => None
  }

  /** `buscar_lugar_en_json(texto)`: lower-cases and strips the text, then
      runs the passes. */
  function Lookup(kb: KnowledgeBase, ratio: Ratio, texto: string): (r: Option<Entry>)
    ensures r.Some? ==> r.value in kb
    ensures r.Some? ==> r.value.0 in Keys(kb) && r.value.1 == ValueOf(kb, r.value.0)
  {
    Resolve(kb, ratio, Normalize(texto))
  }
}

/** What the passes of `buscar_lugar_en_json` promise. `q` stands for the
    normalised query `Normalize(texto)` throughout. */
module PlacesFacts {
  import opened Optional
  import opened Text
  import opened Places

  /** Pass 1 wins first: the first entry in insertion order whose key or
      lower-cased name is in the query is the answer, and neither later pass
      is consulted. */
  lemma DirectPassDecides(kb: KnowledgeBase, ratio: Ratio, texto: string, i: nat)
    requires i < |kb| && DirectHit(kb[i], Normalize(texto))
    requires forall m :: 0 <= m < i ==> !DirectHit(kb[m], Normalize(texto))
    ensures Decide(kb, ratio, Normalize(texto)) == ByDirect(i)
    ensures Lookup(kb, ratio, texto) == Some(kb[i])
  {
    var q := Normalize(texto);
    var r := DirectPass(kb, q);
    assert r.Some? && r.value == i by {
      var p := (e: Entry) => DirectHit(e, q);
      assert p(kb[i]);
    }
  }

  /** A query that contains the key (or the name) of some entry always finds
      a place, that entry or an earlier one. */
  lemma DirectHitNeverMisses(kb: KnowledgeBase, ratio: Ratio, texto: string, i: nat)
    requires i < |kb| && DirectHit(kb[i], Normalize(texto))
    ensures exists j :: 0 <= j <= i && Lookup(kb, ratio, texto) == Some(kb[j])
  {
    var q := Normalize(texto);
    var j := FirstDirectUpTo(kb, q, i);
    DirectPassDecides(kb, ratio, texto, j);
  }

  /** The least index at or below `i` that is a direct hit. */
  lemma {:induction false} FirstDirectUpTo(kb: KnowledgeBase, q: string, i: nat) returns (j: nat)
    requires i < |kb| && DirectHit(kb[i], q)
    ensures j <= i && DirectHit(kb[j], q)
    ensures forall m :: 0 <= m < j ==> !DirectHit(kb[m], q)
    decreases i
  {
    if exists m :: 0 <= m < i && DirectHit(kb[m], q) {
      var m :| 0 <= m < i && DirectHit(kb[m], q);
      j := FirstDirectUpTo(kb, q, m);
    } else {
      j := i;
    }
  }

  /** An entry without `nombre` contributes the name "", which is in every
      query: such an entry, or an earlier one, is found whatever is asked. */
  lemma NamelessEntryMatchesAll(kb: KnowledgeBase, ratio: Ratio, texto: string, i: nat)
    requires i < |kb| && kb[i].1.nombre.None?
    ensures exists j :: 0 <= j <= i && Lookup(kb, ratio, texto) == Some(kb[j])
  {
    assert Lower("") == "";
    EmptyContained(Normalize(texto));
    DirectHitNeverMisses(kb, ratio, texto, i);
  }

  /** Pass 2 is consulted only when pass 1 found nothing; then the answer is
      the best-ranked key whose ratio reaches 0.6, with its record. */
  lemma FuzzyPassDecides(kb: KnowledgeBase, ratio: Ratio, texto: string, k: string)
    requires forall m :: 0 <= m < |kb| ==> !DirectHit(kb[m], Normalize(texto))
    requires k in Keys(kb) && ratio(k, Normalize(texto)) >= Cutoff
    ensures Lookup(kb, ratio, texto).Some?
    ensures var b := Lookup(kb, ratio, texto).value.0;
      && Decide(kb, ratio, Normalize(texto)) == ByFuzzy(b)
      && ratio(b, Normalize(texto)) >= Cutoff
      && !Outranks(ratio, Normalize(texto), k, b)
  {
  }

  /** When exactly one key reaches the cutoff and nothing is a direct hit,
      the lookup answers with that key and its record. */
  lemma FuzzyUniqueCandidate(kb: KnowledgeBase, ratio: Ratio, texto: string, k: string)
    requires forall m :: 0 <= m < |kb| ==> !DirectHit(kb[m], Normalize(texto))
    requires k in Keys(kb) && ratio(k, Normalize(texto)) >= Cutoff
    requires forall x :: x in Keys(kb) && x != k ==> ratio(x, Normalize(texto)) < Cutoff
    ensures Lookup(kb, ratio, texto) == Some((k, ValueOf(kb, k)))
  {
    FuzzyPassDecides(kb, ratio, texto, k);
  }

  /** A fuzzy answer implies that no entry was a direct hit, and names a key
      whose ratio reaches the cutoff. */
  lemma FuzzyOnlyAfterDirect(kb: KnowledgeBase, ratio: Ratio, q: string, k: string)
    requires Decide(kb, ratio, q) == ByFuzzy(k)
    ensures forall m :: 0 <= m < |kb| ==> !DirectHit(kb[m], q)
    ensures k in Keys(kb) && ratio(k, q) >= Cutoff
  {
  }

  /** Pass 3: when neither earlier pass succeeds, the first key (insertion
      order) all of whose words are in the query is the answer. */
  lemma WordsPassDecides(kb: KnowledgeBase, ratio: Ratio, texto: string, i: nat)
    requires forall m :: 0 <= m < |kb| ==> !DirectHit(kb[m], Normalize(texto))
    requires forall k :: k in Keys(kb) ==> ratio(k, Normalize(texto)) < Cutoff
    requires i < |kb| && WordsHit(kb[i].0, Normalize(texto))
    requires forall m :: 0 <= m < i ==> !WordsHit(kb[m].0, Normalize(texto))
    ensures Decide(kb, ratio, Normalize(texto)) == ByWords(i)
    ensures Lookup(kb, ratio, texto) == Some(kb[i])
  {
    var q := Normalize(texto);
    DirectPassNone(kb, q);
    WordsPassFirst(kb, q, i);
    assert ClosestKey(ratio, q, Keys(kb)).None?;
    assert Decide(kb, ratio, q) == ByWords(i);
    ValueOfAt(kb, i);
  }

  /** Pass 1 finds nothing when no entry is a direct hit. */
  lemma DirectPassNone(kb: KnowledgeBase, q: string)
    requires forall m :: 0 <= m < |kb| ==> !DirectHit(kb[m], q)
    ensures DirectPass(kb, q).None?
  {
    var p := (e: Entry) => DirectHit(e, q);
    assert forall m :: 0 <= m < |kb| ==> !p(kb[m]);
  }

  /** Pass 3 stops at the first key all of whose words are in the query. */
  lemma WordsPassFirst(kb: KnowledgeBase, q: string, i: nat)
    requires i < |kb| && WordsHit(kb[i].0, q)
    requires forall m :: 0 <= m < i ==> !WordsHit(kb[m].0, q)
    ensures WordsPass(Keys(kb), q) == Some(i)
  {
    var keys := Keys(kb);
    var p := (k: string) => WordsHit(k, q);
    assert p(keys[i]);
    assert forall m :: 0 <= m < i ==> !p(keys[m]);
  }

  /** The lookup misses exactly when all three passes fail. */
  lemma MissIffAllPassesFail(kb: KnowledgeBase, ratio: Ratio, texto: string)
    ensures Lookup(kb, ratio, texto).None? <==>
      && (forall m :: 0 <= m < |kb| ==> !DirectHit(kb[m], Normalize(texto)))
      && (forall k :: k in Keys(kb) ==> ratio(k, Normalize(texto)) < Cutoff)
      && (forall m :: 0 <= m < |kb| ==> !WordsHit(kb[m].0, Normalize(texto)))
  {
    var q := Normalize(texto);
    var keys := Keys(kb);
    assert Lookup(kb, ratio, texto).None? <==> Decide(kb, ratio, q) == NoMatch;
    assert DirectPass(kb, q).None? <==> forall m :: 0 <= m < |kb| ==> !DirectHit(kb[m], q);
    assert WordsPass(keys, q).None? <==> forall m :: 0 <= m < |keys| ==> !WordsHit(keys[m], q);
    assert (forall m :: 0 <= m < |kb| ==> !WordsHit(kb[m].0, q))
       <==> (forall m :: 0 <= m < |keys| ==> !WordsHit(keys[m], q));
  }

  /** A missing places file yields an empty knowledge base, which never matches. */
  lemma EmptyKnowledgeBaseMisses(ratio: Ratio, texto: string)
    ensures Lookup([], ratio, texto) == None
  {
  }

  /** The word pass accepts every key the direct pass accepts: each word of
      the key is inside the key, hence inside the query. */
  lemma KeyInQueryHasAllWords(k: string, q: string)
    requires Contains(k, q)
    ensures WordsHit(k, q)
  {
    SplitWordsOccur(k);
    forall w | w in Split(k) ensures Contains(w, q) {
      ContainsTransitive(w, k, q);
    }
  }

  /** So the word pass only ever answers with a key made of several words:
      a one-word key that passes it is in the query, and pass 1 would have
      taken it. */
  lemma WordsAnswerHasSeveralWords(kb: KnowledgeBase, ratio: Ratio, q: string, i: nat)
    requires Decide(kb, ratio, q) == ByWords(i)
    ensures i < |kb| && kb[i].0 != "" && !NoSpace(kb[i].0)
  {
    var k := kb[i].0;
    var keys := Keys(kb);
    assert !DirectHit(kb[i], q);
    assert WordsHit(keys[i], q) by {
      var r := WordsPass(keys, q);
      assert r == Some(i);
    }
    if k == "" {
      EmptyContained(q);
    } else if NoSpace(k) {
      OneWordHit(k, q);
    }
  }

  /** For a one-word key the word pass is the substring test. */
  lemma OneWordHit(k: string, q: string)
    requires k != "" && NoSpace(k) && WordsHit(k, q)
    ensures Contains(k, q)
  {
    SplitOneWord(k);
    assert k in Split(k);
  }

  /** A key that splits into no words (a blank key) passes the word pass for
      every query, so a knowledge base holding one never misses. */
  lemma BlankKeyNeverMisses(kb: KnowledgeBase, ratio: Ratio, texto: string, i: nat)
    requires i < |kb| && Blank(kb[i].0)
    ensures Lookup(kb, ratio, texto).Some?
  {
    SplitBlank(kb[i].0);
    assert WordsHit(kb[i].0, Normalize(texto));
    MissIffAllPassesFail(kb, ratio, texto);
  }

  /** Normalising the query first does not change the answer: the lookup's
      own `lower().strip()` is idempotent. */
  lemma LookupOfNormalized(kb: KnowledgeBase, ratio: Ratio, texto: string)
    ensures Lookup(kb, ratio, Normalize(texto)) == Lookup(kb, ratio, texto)
  {
    NormalizeIdempotent(texto);
    assert Lookup(kb, ratio, Normalize(texto)) == Resolve(kb, ratio, Normalize(Normalize(texto)));
  }
}
