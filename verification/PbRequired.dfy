/**
 The fields_seen bitmap of pb_decode_noinit: two words of 32 bits, indexed by the position of a
 required field among the required fields. A word is modelled by the set of its one bits.
 */
module PbRequired {
  import opened Entries
  import opened PbSchema
  import opened PbDecoding

  const WORD_BITS: nat := 32
  const WORDS: nat := 2

  type Word = set<nat>

  /** The word with the lowest n bits set. */
  function LowBits(n: nat): (w: Word)
    ensures forall b: nat :: b in w <==> b < n
  {
    if n == 0 then {} else LowBits(n - 1) + {n - 1}
  }

  // ----- the position of a field among the required ones

  lemma {:induction false} RankGrows(fields: seq<Field>, i: nat, j: nat)
    requires i < j <= |fields| && fields[i].rule.Required?
    ensures RequiredBefore(fields, i) < RequiredBefore(fields, j)
    decreases j
  {
    if i + 1 < j {
      RankGrows(fields, i, j - 1);
    }
  }

  lemma {:induction false} FieldOfRank(fields: seq<Field>, r: nat, n: nat) returns (i: nat)
    requires n <= |fields| && r < RequiredBefore(fields, n)
    ensures i < n && fields[i].rule.Required? && RequiredBefore(fields, i) == r
    decreases n
  {
    if RequiredBefore(fields, n - 1) > r {
      i := FieldOfRank(fields, r, n - 1);
    } else {
      i := n - 1;
    }
  }

  /** The required field with r required fields before it has been met. */
  ghost predicate RankMet(fields: seq<Field>, met: set<nat>, r: nat) {
    exists i :: 0 <= i < |fields| && fields[i].rule.Required? && RequiredBefore(fields, i) == r && i in met
  }

  lemma {:induction false} RankMetIsInside(fields: seq<Field>, met: set<nat>, r: nat)
    requires RankMet(fields, met, r)
    ensures r < RequiredBefore(fields, |fields|)
  {
    var i :| 0 <= i < |fields| && fields[i].rule.Required? && RequiredBefore(fields, i) == r && i in met;
    RankGrows(fields, i, |fields|);
  }

  lemma {:induction false} RankMetMeans(fields: seq<Field>, met: set<nat>, i: nat)
    requires i < |fields| && fields[i].rule.Required?
    ensures RankMet(fields, met, RequiredBefore(fields, i)) <==> i in met
  {
    if RankMet(fields, met, RequiredBefore(fields, i)) {
      var k :| 0 <= k < |fields| && fields[k].rule.Required?
                  && RequiredBefore(fields, k) == RequiredBefore(fields, i) && k in met;
      if k < i {
        RankGrows(fields, k, i);
      } else if i < k {
        RankGrows(fields, i, k);
      }
    }
  }

  lemma {:induction false} MeetAddsRank(fields: seq<Field>, met: set<nat>, i: nat, r: nat)
    requires i < |fields| && fields[i].rule.Required?
    ensures RankMet(fields, Meet(fields, met, i), r) <==> RankMet(fields, met, r) || r == RequiredBefore(fields, i)
  {
    if RankMet(fields, met, r) {
      var k :| 0 <= k < |fields| && fields[k].rule.Required? && RequiredBefore(fields, k) == r && k in met;
      assert k in Meet(fields, met, i);
    }
    assert i in Meet(fields, met, i);
  }

  /** How many required fields pb_decode_noinit checks. */
  function Tracked(fields: seq<Field>): nat {
    var total := RequiredBefore(fields, |fields|);
    if total > MAX_REQUIRED_FIELDS then MAX_REQUIRED_FIELDS else total
  }

  lemma {:induction false} RanksMetIsAllRequired(fields: seq<Field>, met: set<nat>)
    ensures AllRequired(fields, met) <==> forall r :: 0 <= r < Tracked(fields) ==> RankMet(fields, met, r)
  {
    if AllRequired(fields, met) {
      forall r | 0 <= r < Tracked(fields) ensures RankMet(fields, met, r) {
        var i := FieldOfRank(fields, r, |fields|);
        assert i in met;
      }
    } else {
      var i :| 0 <= i < |fields| && fields[i].rule.Required?
                && RequiredBefore(fields, i) < MAX_REQUIRED_FIELDS && i !in met;
      RankGrows(fields, i, |fields|);
      RankMetMeans(fields, met, i);
      assert !RankMet(fields, met, RequiredBefore(fields, i));
    }
  }

  // ----- the bitmap

  ghost predicate BitsMean(fields: seq<Field>, met: set<nat>, w: nat, word: Word) {
    forall b: nat :: b in word <==> b < WORD_BITS && RankMet(fields, met, WORD_BITS * w + b)
  }

  ghost predicate Tracks(fields: seq<Field>, met: set<nat>, words: seq<Word>) {
    |words| == WORDS && BitsMean(fields, met, 0, words[0]) && BitsMean(fields, met, 1, words[1])
  }

  lemma {:induction false} NothingMet(fields: seq<Field>)
    ensures Tracks(fields, {}, [{}, {}])
  {
    assert forall r :: !RankMet(fields, {}, r);
  }

  lemma {:induction false} MarkedWord(fields: seq<Field>, met: set<nat>, w: nat, word: Word, i: nat)
    requires i < |fields| && fields[i].rule.Required? && BitsMean(fields, met, w, word)
    ensures var index := RequiredBefore(fields, i);
            BitsMean(fields, Meet(fields, met, i), w,
                if index / WORD_BITS == w then word + {index % WORD_BITS} else word)
  {
    hide RankMet, Meet;
    var index := RequiredBefore(fields, i);
    var marked := if index / WORD_BITS == w then word + {index % WORD_BITS} else word;
    forall b: nat ensures b in marked <==> b < WORD_BITS && RankMet(fields, Meet(fields, met, i), WORD_BITS * w + b) {
      MeetAddsRank(fields, met, i, WORD_BITS * w + b);
    }
  }

  /** Sets the bit of a required field, if it is among those that are tracked. */
  method Mark(words: array<Word>, index: nat, ghost fields: seq<Field>, ghost met: set<nat>, ghost i: nat)
    requires i < |fields| && fields[i].rule.Required? && index == RequiredBefore(fields, i)
    requires Tracks(fields, met, words[..])
    modifies words
    ensures Tracks(fields, Meet(fields, met, i), words[..])
  {
    hide BitsMean, RankMet;
    MarkedWord(fields, met, 0, words[0], i);
    MarkedWord(fields, met, 1, words[1], i);
    if index < MAX_REQUIRED_FIELDS {
      words[index / WORD_BITS] := words[index / WORD_BITS] + {index % WORD_BITS};
    }
  }

  lemma {:induction false} FullWord(fields: seq<Field>, met: set<nat>, w: nat, word: Word, n: nat)
    requires BitsMean(fields, met, w, word) && n <= WORD_BITS
    requires forall r :: WORD_BITS * w + n <= r < WORD_BITS * (w + 1) ==> !RankMet(fields, met, r)
    ensures word == LowBits(n) <==> forall r :: WORD_BITS * w <= r < WORD_BITS * w + n ==> RankMet(fields, met, r)
  {
    hide RankMet;
    if word == LowBits(n) {
      forall r | WORD_BITS * w <= r < WORD_BITS * w + n ensures RankMet(fields, met, r) {
        assert r - WORD_BITS * w in word;
      }
    }
    if forall r :: WORD_BITS * w <= r < WORD_BITS * w + n ==> RankMet(fields, met, r) {
      forall b: nat ensures b in word <==> b in LowBits(n) {
        if b < WORD_BITS {
          assert RankMet(fields, met, WORD_BITS * w + b) <==> b < n;
        }
      }
      assert word == LowBits(n);
    }
  }

  /** The check at the end of pb_decode_noinit: whole words first, then the bits that remain. */
  method CheckRequired(words: array<Word>, total: nat, ghost fields: seq<Field>, ghost met: set<nat>) returns (ok: bool)
    requires Tracks(fields, met, words[..]) && total == RequiredBefore(fields, |fields|)
    ensures ok == AllRequired(fields, met)
  {
    hide BitsMean, RankMet, AllRequired, LowBits;
    var count := if total > MAX_REQUIRED_FIELDS then MAX_REQUIRED_FIELDS else total;
    RanksMetIsAllRequired(fields, met);
    forall r | r >= total ensures !RankMet(fields, met, r) {
      if RankMet(fields, met, r) {
        RankMetIsInside(fields, met, r);
      }
    }
    var i := 0;
    while i < count / WORD_BITS
      invariant i <= count / WORD_BITS
      invariant forall r :: 0 <= r < WORD_BITS * i ==> RankMet(fields, met, r)
    {
      FullWord(fields, met, i, words[i], WORD_BITS);
      if words[i] != LowBits(WORD_BITS) {
        return false;
      }
      i := i + 1;
    }
    if count % WORD_BITS != 0 {
      FullWord(fields, met, i, words[i], count % WORD_BITS);
      if words[i] != LowBits(count % WORD_BITS) {
        return false;
      }
    }
    return true;
  }
}
