/** The byte budget of team notices: `listContextNotices` in `src/context-notices.mjs` fills a lane, `renderContext` in
    `src/context-query.mjs` thins it to what the context has left, and `boundedContext` cuts the context. Texts are their
    UTF-8 bytes. */
module NoticeBudget {
  import opened Wrappers

  type Bytes = seq<int>

  const NEWLINE := 10

  /** A notice as data: what is put around its text names the nonce, the author, the approvals and the commit. */
  datatype Notice = Notice(opening: Bytes, text: Bytes, closing: Bytes)

  function Envelope(n: Notice): Bytes {
    n.opening + [NEWLINE] + n.text + [NEWLINE] + n.closing
  }

  /** A view of a notice holds its whole envelope, or none of it. */
  type Slot = Option<Bytes>

  datatype Lane = Lane(header: Bytes, included: int, omittedByBudget: int, textBytes: nat)

  // ---- sizes ----

  /** `join('\\n')`. */
  function Joined(parts: seq<Bytes>): Bytes {
    if parts == [] then []
    else if |parts| == 1 then parts[0]
    else parts[0] + [NEWLINE] + Joined(parts[1..])
  }

  /** Every line with its newline. */
  function LinesSize(lines: seq<Bytes>): nat {
    if lines == [] then 0 else |lines[0]| + 1 + LinesSize(lines[1..])
  }

  function Kept(slots: seq<Slot>): seq<Bytes> {
    if slots == [] then [] else (if slots[0].Some? then [slots[0].value] else []) + Kept(slots[1..])
  }

  lemma {:induction false} JoinedSize(parts: seq<Bytes>)
    requires parts != []
    ensures |Joined(parts)| + 1 == LinesSize(parts)
  {
    if |parts| > 1 { JoinedSize(parts[1..]); } else { assert LinesSize(parts[1..]) == 0; }
  }

  /** The parts of a joined text are separated by one newline each. */
  lemma {:induction false} JoinedMore(parts: seq<Bytes>, last: Bytes)
    ensures Joined(parts + [last]) == if parts == [] then last else Joined(parts) + [10] + last
    decreases |parts|
  {
    if parts == [] {
      assert parts + [last] == [last];
    } else {
      assert (parts + [last])[0] == parts[0] && (parts + [last])[1..] == parts[1..] + [last];
      JoinedMore(parts[1..], last);
      if |parts| > 1 {
        assert parts[0] + [10] + (Joined(parts[1..]) + [10] + last) == parts[0] + [10] + Joined(parts[1..]) + [10] + last;
      }
    }
  }

  lemma {:induction false} SizeOfBoth(a: seq<Bytes>, b: seq<Bytes>)
    ensures LinesSize(a + b) == LinesSize(a) + LinesSize(b)
  {
    if a == [] {
      assert a + b == b;
    } else {
      assert (a + b)[0] == a[0] && (a + b)[1..] == a[1..] + b;
      SizeOfBoth(a[1..], b);
    }
  }

  lemma {:induction false} KeptOfBoth(a: seq<Slot>, b: seq<Slot>)
    ensures Kept(a + b) == Kept(a) + Kept(b)
  {
    if a == [] {
      assert a + b == b;
    } else {
      assert (a + b)[0] == a[0] && (a + b)[1..] == a[1..] + b;
      KeptOfBoth(a[1..], b);
    }
  }

  lemma SizeOfOne(line: Bytes)
    ensures LinesSize([line]) == |line| + 1
  {
    assert [line][1..] == [];
  }

  lemma KeptFirst(slots: seq<Slot>)
    requires slots != []
    ensures LinesSize(Kept(slots)) == (if slots[0].Some? then |slots[0].value| + 1 else 0) + LinesSize(Kept(slots[1..]))
    ensures |Kept(slots)| == (if slots[0].Some? then 1 else 0) + |Kept(slots[1..])|
  {
    var rest := Kept(slots[1..]);
    if slots[0].Some? {
      var first := slots[0].value;
      SizeOfOne(first);
      SizeOfBoth([first], rest);
      assert Kept(slots) == [first] + rest;
    } else {
      assert Kept(slots) == [] + rest;
      assert [] + rest == rest;
    }
  }

  /** The lines of the lane with one more envelope. */
  lemma KeepOne(kept: seq<Bytes>, envelope: Bytes)
    ensures LinesSize(kept + [envelope]) == LinesSize(kept) + |envelope| + 1
  {
    SizeOfOne(envelope);
    SizeOfBoth(kept, [envelope]);
  }

  // ---- what both passes do ----

  /** The lane's text with one more envelope. */
  function LaneText(header: Bytes, kept: seq<Bytes>): Bytes {
    Joined([header] + kept)
  }

  predicate Fits(header: Bytes, kept: seq<Bytes>, envelope: Bytes, budget: int) {
    |LaneText(header, kept + [envelope])| <= budget
  }

  /** Each envelope offered is kept whole exactly when the lane, with those kept before it, stays within the budget. */
  predicate Greedy(header: Bytes, offered: seq<Slot>, slots: seq<Slot>, budget: int) {
    && |slots| == |offered|
    && forall i | 0 <= i < |offered| ::
         slots[i] == if offered[i].Some? && Fits(header, Kept(slots[..i]), offered[i].value, budget) then offered[i] else None
  }

  lemma LaneTextSize(header: Bytes, kept: seq<Bytes>)
    ensures |LaneText(header, kept)| == |header| + LinesSize(kept)
  {
    JoinedSize([header] + kept);
    assert ([header] + kept)[1..] == kept;
  }

  lemma OneMoreFits(header: Bytes, kept: seq<Bytes>, envelope: Bytes, budget: int)
    ensures Fits(header, kept, envelope, budget) <==> |header| + LinesSize(kept) + |envelope| + 1 <= budget
  {
    LaneTextSize(header, kept + [envelope]);
    KeepOne(kept, envelope);
  }

  lemma GreedyMore(header: Bytes, offered: seq<Slot>, slots: seq<Slot>, budget: int, envelope: Slot, next: Slot)
    requires Greedy(header, offered, slots, budget)
    requires next == if envelope.Some? && Fits(header, Kept(slots), envelope.value, budget) then envelope else None
    ensures Greedy(header, offered + [envelope], slots + [next], budget)
    ensures Kept(slots + [next]) == if next.Some? then Kept(slots) + [next.value] else Kept(slots)
  {
    var more := slots + [next];
    forall i | 0 <= i <= |slots| ensures more[..i] == if i < |slots| then slots[..i] else slots {}
    KeptOfBoth(slots, [next]);
    assert Kept([next]) == if next.Some? then [next.value] else [];
    assert Kept(slots) + [] == Kept(slots);
  }

  // ---- the first pass ----

  function Offered(notices: seq<Notice>): seq<Slot> {
    seq(|notices|, i requires 0 <= i < |notices| => Some(Envelope(notices[i])))
  }

  lemma OneMoreOffered(notices: seq<Notice>, i: nat)
    requires i < |notices|
    ensures Offered(notices[..i + 1]) == Offered(notices[..i]) + [Some(Envelope(notices[i]))]
  {
  }

  /** `noticeEnvelope`: an envelope that does not fit is not shown at all. It is never empty. */
  method NoticeEnvelope(notice: Notice, remaining: nat) returns (envelope: Slot, left: nat)
    ensures envelope == if |Envelope(notice)| <= remaining then Some(Envelope(notice)) else None
    ensures left == if envelope.Some? then remaining - |Envelope(notice)| else remaining
    ensures |Envelope(notice)| > 0
  {
    var text := Envelope(notice);
    if |text| > remaining { return None, remaining; }
    return Some(text), remaining - |text|;
  }

  /** The budget loop of `listContextNotices`, over the notices that reach it. */
  method ListNotices(notices: seq<Notice>, header: Bytes, budget: nat) returns (slots: seq<Slot>, lane: Lane)
    ensures Greedy(header, Offered(notices), slots, budget)
    ensures lane.included == |Kept(slots)| && lane.included + lane.omittedByBudget == |notices|
    ensures lane.textBytes <= budget
    ensures if Kept(slots) == [] then lane.header == [] && lane.textBytes == 0
            else lane.header == header && lane.textBytes == |LaneText(header, Kept(slots))|
  {
    var remaining: nat := budget;
    var included, omitted := 0, 0;
    var shown: Bytes := [];
    slots := [];
    for i := 0 to |notices|
      invariant Greedy(header, Offered(notices[..i]), slots, budget)
      invariant included == |Kept(slots)| && included + omitted == i
      invariant if included == 0 then Kept(slots) == [] && shown == [] && remaining == budget
                else shown == header && remaining == budget - (|header| + LinesSize(Kept(slots)))
    {
      var overhead := if included > 0 then 1 else |header| + 1;
      var room := if remaining > overhead then remaining - overhead else 0;
      var envelope, left := NoticeEnvelope(notices[i], room);
      ghost var text := Envelope(notices[i]);
      OneMoreFits(header, Kept(slots), text, budget);
      KeepOne(Kept(slots), text);
      GreedyMore(header, Offered(notices[..i]), slots, budget, Some(text), envelope);
      OneMoreOffered(notices, i);
      if envelope == None {
        omitted := omitted + 1;
      } else {
        remaining := left;
        shown := header;
        included := included + 1;
      }
      slots := slots + [envelope];
    }
    assert notices[..|notices|] == notices;
    LaneTextSize(header, Kept(slots));
    lane := Lane(shown, included, omitted, budget - remaining);
  }

  // ---- the second pass ----

  /** The blocks of a lane: the header and the first envelope are one entry. */
  function Blocks(header: Bytes, kept: seq<Bytes>): seq<Bytes> {
    if kept == [] then [] else [header + [NEWLINE] + kept[0]] + kept[1..]
  }

  lemma BlocksSize(header: Bytes, kept: seq<Bytes>)
    requires kept != []
    ensures LinesSize(Blocks(header, kept)) == |LaneText(header, kept)| + 1
  {
    LaneTextSize(header, kept);
    assert Blocks(header, kept)[1..] == kept[1..];
  }

  /** Replacing the pending nonce by the real one keeps every length. */
  ghost predicate KeepsLength(seal: Bytes -> Bytes) {
    forall b :: |seal(b)| == |b|
  }

  function SealedSlots(slots: seq<Slot>, seal: Bytes -> Bytes): seq<Slot> {
    seq(|slots|, i requires 0 <= i < |slots| => if slots[i].Some? then Some(seal(slots[i].value)) else None)
  }

  lemma {:induction false} SealingKeepsSize(slots: seq<Slot>, seal: Bytes -> Bytes)
    requires KeepsLength(seal)
    ensures |Kept(SealedSlots(slots, seal))| == |Kept(slots)|
    ensures LinesSize(Kept(SealedSlots(slots, seal))) == LinesSize(Kept(slots))
  {
    if slots != [] {
      var sealed := SealedSlots(slots, seal);
      assert sealed[1..] == SealedSlots(slots[1..], seal);
      SealingKeepsSize(slots[1..], seal);
      KeptFirst(slots);
      KeptFirst(sealed);
    }
  }

  /** What is kept of a lane is no longer than the lane. */
  lemma {:induction false} ThinnedSize(offered: seq<Slot>, slots: seq<Slot>)
    requires |slots| == |offered| && forall i | 0 <= i < |slots| :: slots[i] == None || slots[i] == offered[i]
    ensures LinesSize(Kept(slots)) <= LinesSize(Kept(offered))
  {
    if slots != [] {
      ThinnedSize(offered[1..], slots[1..]);
      KeptFirst(offered);
      KeptFirst(slots);
    }
  }

  /** The notice loop of `renderContext`: `lines` is what the context holds so far. */
  method ThinNotices(lines: seq<Bytes>, offered: seq<Slot>, lane: Lane, maxBytes: nat) returns (slots: seq<Slot>, thinned: Lane)
    requires lane.included == |Kept(offered)|
    ensures Greedy(lane.header, offered, slots, maxBytes - LinesSize(lines) - 1)
    ensures thinned.included == |Kept(slots)|
    ensures thinned.included + thinned.omittedByBudget == lane.included + lane.omittedByBudget
    ensures thinned.header == if Kept(slots) == [] then [] else lane.header
    ensures thinned.textBytes == if Kept(slots) == [] then 0 else |LaneText(lane.header, Kept(slots))|
  {
    ghost var budget := maxBytes - LinesSize(lines) - 1;
    var remaining: int := maxBytes - LinesSize(lines);
    var included, omitted := lane.included, lane.omittedByBudget;
    var envelopes: seq<Bytes> := [];
    slots := [];
    for i := 0 to |offered|
      invariant Greedy(lane.header, offered[..i], slots, budget)
      invariant envelopes == Kept(slots)
      invariant included == |Kept(slots)| + |Kept(offered[i..])|
      invariant included + omitted == lane.included + lane.omittedByBudget
      invariant remaining == budget + 1 - if envelopes == [] then 0 else |lane.header| + 1 + LinesSize(envelopes)
    {
      assert offered[i..][1..] == offered[i + 1..] && offered[..i + 1] == offered[..i] + [offered[i]];
      KeptFirst(offered[i..]);
      var next: Slot := None;
      if offered[i].Some? {
        var envelope := offered[i].value;
        var block := (if envelopes == [] then lane.header + [NEWLINE] else []) + envelope;
        OneMoreFits(lane.header, envelopes, envelope, budget);
        if |block| + 1 > remaining {
          included := included - 1;
          omitted := omitted + 1;
        } else {
          next := offered[i];
          KeepOne(envelopes, envelope);
          remaining := remaining - (|block| + 1);
          envelopes := envelopes + [envelope];
        }
      }
      GreedyMore(lane.header, offered[..i], slots, budget, offered[i], next);
      slots := slots + [next];
    }
    assert offered[..|offered|] == offered;
    thinned := Lane(if envelopes == [] then [] else lane.header, included, omitted,
                    if envelopes == [] then 0 else |LaneText(lane.header, envelopes)|);
  }

  /** `boundedContext`, before the lines are joined: the longest prefix within the budget. */
  method BoundedLines(lines: seq<Bytes>, maxBytes: nat) returns (accepted: seq<Bytes>)
    ensures accepted <= lines && LinesSize(accepted) <= maxBytes
    ensures forall n | 0 <= n <= |lines| && LinesSize(lines[..n]) <= maxBytes :: n <= |accepted|
  {
    accepted := [];
    var bytes := 0;
    for i := 0 to |lines|
      invariant accepted == lines[..i] && bytes == LinesSize(accepted) <= maxBytes
    {
      var lineBytes := |lines[i]| + 1;
      KeepOne(lines[..i], lines[i]);
      assert lines[..i + 1] == lines[..i] + [lines[i]];
      if bytes + lineBytes > maxBytes {
        forall n | 0 <= n <= |lines| && LinesSize(lines[..n]) <= maxBytes ensures n <= i {
          if n > i { PrefixSize(lines, i + 1, n); }
        }
        return;
      }
      accepted := accepted + [lines[i]];
      bytes := bytes + lineBytes;
    }
  }

  lemma PrefixSize(lines: seq<Bytes>, m: nat, n: nat)
    requires m <= n <= |lines|
    ensures LinesSize(lines[..m]) <= LinesSize(lines[..n])
  {
    assert lines[..n] == lines[..m] + lines[m..n];
    SizeOfBoth(lines[..m], lines[m..n]);
  }

  // ---- which notices the context holds ----

  /** The bytes of the envelopes that are kept, each with the newline before it. */
  ghost function Taken(slots: seq<Slot>): nat {
    if slots == [] then 0
    else Taken(slots[..|slots| - 1]) + match slots[|slots| - 1] case None => 0 case Some(envelope) => |envelope| + 1
  }

  /** The notices, in order: a notice is listed when its envelope, behind those listed before it, fits the lane; and it
      stays when it also fits what the context has left, behind those that stay before it. It then stands sealed. */
  ghost predicate Selected(notices: seq<Notice>, header: Bytes, laneBudget: int, left: int, seal: Bytes -> Bytes,
                           listed: seq<Slot>, slots: seq<Slot>)
  {
    && |listed| == |slots| == |notices|
    && forall i | 0 <= i < |notices| ::
         var envelope := notices[i].opening + [10] + notices[i].text + [10] + notices[i].closing;
         && listed[i] == (if |header| + Taken(listed[..i]) + |envelope| + 1 <= laneBudget then Some(envelope) else None)
         && slots[i] == (if listed[i].Some? && |header| + Taken(slots[..i]) + |envelope| + 1 <= left then Some(seal(envelope)) else None)
  }

  /** Behind the lines come the lane's header with the first envelope, as one line, and then the other envelopes. */
  ghost predicate Stands(accepted: seq<Bytes>, lines: seq<Bytes>, header: Bytes, kept: seq<Bytes>) {
    && lines <= accepted && |lines| + |kept| <= |accepted|
    && forall j | 0 <= j < |kept| :: accepted[|lines| + j] == if j == 0 then header + [10] + kept[0] else kept[j]
  }

  lemma {:induction false} TakenIsKept(slots: seq<Slot>)
    ensures Taken(slots) == LinesSize(Kept(slots))
  {
    if slots != [] {
      var n := |slots| - 1;
      TakenIsKept(slots[..n]);
      assert slots == slots[..n] + [slots[n]];
      KeptOfBoth(slots[..n], [slots[n]]);
      if slots[n].Some? {
        assert Kept([slots[n]]) == [slots[n].value];
        KeepOne(Kept(slots[..n]), slots[n].value);
      } else {
        assert Kept([slots[n]]) == [] && Kept(slots[..n]) + [] == Kept(slots[..n]);
      }
    }
  }

  lemma {:induction false} KeptSome(slots: seq<Slot>, i: nat)
    requires i < |slots| && slots[i].Some?
    ensures Kept(slots) != []
  {
    if i > 0 { KeptSome(slots[1..], i - 1); }
  }

  /** The first pass lists a notice exactly when it fits. */
  lemma ListedExactly(notices: seq<Notice>, header: Bytes, budget: int, listed: seq<Slot>, i: nat)
    requires Greedy(header, Offered(notices), listed, budget) && i < |notices|
    ensures var envelope := notices[i].opening + [10] + notices[i].text + [10] + notices[i].closing;
            listed[i] == if |header| + Taken(listed[..i]) + |envelope| + 1 <= budget then Some(envelope) else None
  {
    assert Offered(notices)[i] == Some(Envelope(notices[i]));
    OneMoreFits(header, Kept(listed[..i]), Envelope(notices[i]), budget);
    TakenIsKept(listed[..i]);
  }

  /** The second pass keeps a listed notice exactly when it fits what is left. */
  lemma KeptExactly(header: Bytes, listed: seq<Slot>, thinned: seq<Slot>, budget: int, seal: Bytes -> Bytes, i: nat)
    requires Greedy(header, listed, thinned, budget) && KeepsLength(seal) && i < |listed|
    ensures var slots := SealedSlots(thinned, seal);
            slots[i] == if listed[i].Some? && |header| + Taken(slots[..i]) + |listed[i].value| + 1 <= budget
                        then Some(seal(listed[i].value)) else None
  {
    if listed[i].Some? { OneMoreFits(header, Kept(thinned[..i]), listed[i].value, budget); }
    var slots := SealedSlots(thinned, seal);
    assert slots[..i] == SealedSlots(thinned[..i], seal);
    TakenIsKept(slots[..i]);
    SealingKeepsSize(thinned[..i], seal);
  }

  lemma BothPasses(notices: seq<Notice>, header: Bytes, laneBudget: int, left: int, seal: Bytes -> Bytes,
                   shown: Bytes, listed: seq<Slot>, thinned: seq<Slot>)
    requires Greedy(header, Offered(notices), listed, laneBudget) && Greedy(shown, listed, thinned, left) && KeepsLength(seal)
    requires Kept(listed) != [] ==> shown == header
    ensures Selected(notices, header, laneBudget, left, seal, listed, SealedSlots(thinned, seal))
  {
    forall i | 0 <= i < |notices|
      ensures var envelope, slots := notices[i].opening + [10] + notices[i].text + [10] + notices[i].closing, SealedSlots(thinned, seal);
              && listed[i] == (if |header| + Taken(listed[..i]) + |envelope| + 1 <= laneBudget then Some(envelope) else None)
              && slots[i] == (if listed[i].Some? && |header| + Taken(slots[..i]) + |envelope| + 1 <= left then Some(seal(envelope)) else None) {
      ListedExactly(notices, header, laneBudget, listed, i);
      KeptExactly(shown, listed, thinned, left, seal, i);
      if listed[i].Some? { KeptSome(listed, i); }
    }
  }

  lemma BlocksStand(lines: seq<Bytes>, header: Bytes, kept: seq<Bytes>, accepted: seq<Bytes>)
    requires kept != [] && lines + Blocks(header, kept) <= accepted
    ensures Stands(accepted, lines, header, kept)
  {
    var all := lines + Blocks(header, kept);
    forall j | 0 <= j < |kept| ensures accepted[|lines| + j] == if j == 0 then header + [10] + kept[0] else kept[j] {
      assert accepted[|lines| + j] == all[|lines| + j] == Blocks(header, kept)[j];
    }
  }

  /** The notice part of `renderContext`, from the lane that was listed to the lines of the context. Every envelope that is
      still in a notice stands whole in the context, and the lane's count of bytes is exact and within its budget. */
  method RenderContext(lines: seq<Bytes>, notices: seq<Notice>, header: Bytes, laneBudget: nat, more: seq<Bytes>, maxBytes: nat,
                       seal: Bytes -> Bytes)
    returns (accepted: seq<Bytes>, slots: seq<Slot>, lane: Lane, ghost listed: seq<Slot>)
    requires KeepsLength(seal)
    // which notices are kept
    ensures Selected(notices, header, laneBudget, maxBytes - LinesSize(lines) - 1, seal, listed, slots)
    // the context: what is kept stands whole in it, and it is cut where the budget ends
    ensures Kept(slots) != [] ==> Stands(accepted, lines, lane.header, Kept(slots))
    ensures accepted <= lines + Blocks(lane.header, Kept(slots)) + more && LinesSize(accepted) <= maxBytes
    ensures forall n | |accepted| < n <= |lines + Blocks(lane.header, Kept(slots)) + more| ::
              LinesSize((lines + Blocks(lane.header, Kept(slots)) + more)[..n]) > maxBytes
    // the lane
    ensures lane.included == |Kept(slots)| && lane.included + lane.omittedByBudget == |notices|
    ensures lane.header == if Kept(slots) == [] then [] else seal(header)
    ensures lane.textBytes == if Kept(slots) == [] then 0 else |LaneText(lane.header, Kept(slots))|
    ensures lane.textBytes <= laneBudget
  {
    var shown, first := ListNotices(notices, header, laneBudget);
    listed := shown;
    var thinned, second := ThinNotices(lines, shown, first, maxBytes);
    slots := SealedSlots(thinned, seal);
    BothPasses(notices, header, laneBudget, maxBytes - LinesSize(lines) - 1, seal, first.header, listed, thinned);
    LaneIsSealed(header, laneBudget, first.header, listed, thinned, seal);
    lane := second.(header := seal(second.header));
    var blocks := Blocks(lane.header, Kept(slots));
    var all := lines + blocks + more;
    accepted := BoundedLines(all, maxBytes);
    if Kept(slots) != [] {
      LastKeptFits(first.header, listed, thinned, maxBytes - LinesSize(lines) - 1);
      BlocksSize(lane.header, Kept(slots));
      SizeOfBoth(lines, blocks);
      assert all[..|lines + blocks|] == lines + blocks;
      BlocksStand(lines, lane.header, Kept(slots), accepted);
    }
  }

  /** Thinning and sealing leave the lane within its budget. */
  lemma LaneIsSealed(header: Bytes, laneBudget: int, shown: Bytes, listed: seq<Slot>, thinned: seq<Slot>, seal: Bytes -> Bytes)
    requires |thinned| == |listed| && KeepsLength(seal)
    requires forall i | 0 <= i < |thinned| :: thinned[i] == None || thinned[i] == listed[i]
    requires if Kept(listed) == [] then shown == [] && 0 <= laneBudget else shown == header && |LaneText(header, Kept(listed))| <= laneBudget
    ensures |Kept(SealedSlots(thinned, seal))| == |Kept(thinned)|
    ensures Kept(thinned) != [] ==>
              && shown == header
              && |LaneText(seal(shown), Kept(SealedSlots(thinned, seal)))| == |LaneText(shown, Kept(thinned))| <= laneBudget
  {
    SealingKeepsSize(thinned, seal);
    ThinnedSize(listed, thinned);
    LaneTextSize(header, Kept(listed));
    LaneTextSize(shown, Kept(thinned));
    LaneTextSize(seal(shown), Kept(SealedSlots(thinned, seal)));
  }

  /** What a pass keeps fits, all together. */
  lemma {:induction false} LastKeptFits(header: Bytes, offered: seq<Slot>, slots: seq<Slot>, budget: int)
    requires Greedy(header, offered, slots, budget) && Kept(slots) != []
    ensures |LaneText(header, Kept(slots))| <= budget
    decreases |slots|
  {
    var n := |slots| - 1;
    var before, last := slots[..n], slots[n];
    assert slots == before + [last];
    KeptOfBoth(before, [last]);
    if last == None {
      assert Kept([last]) == [] && Kept(before) + [] == Kept(before);
      assert forall i | 0 <= i < n :: slots[..n][..i] == slots[..i];
      LastKeptFits(header, offered[..n], before, budget);
    } else {
      assert Kept([last]) == [last.value];
    }
  }
}
