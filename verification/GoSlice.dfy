/** Go slices: a backing array seen up to a length, which `append` writes into while there is
    room and copies out of when there is not. None here is ever resliced, so every slice
    starts at its array's first element and its capacity is that array's length. */
module GoSlice {
  datatype Slice = Nil | Of(backing: array<string>, length: nat) {
    predicate Valid() {
      Of? ==> length <= backing.Length
    }

    function Cap(): nat {
      if Of? then backing.Length else 0
    }

    function Len(): nat {
      if Of? then length else 0
    }

    ghost function Arrays(): set<array<string>> {
      if Of? then {backing} else {}
    }

    function View(): seq<string>
      requires Valid()
      reads Arrays()
    {
      if Of? then backing[..length] else []
    }
  }

  /** `append(s, xs...)`. How much a new array exceeds what is needed is the runtime's choice. */
  method Append(s: Slice, xs: seq<string>) returns (r: Slice)
    requires s.Valid()
    modifies if s.Len() + |xs| <= s.Cap() then s.Arrays() else {}
    ensures r.Valid() && r.View() == old(s.View()) + xs
    ensures s.Len() + |xs| <= s.Cap() ==> r.Arrays() == s.Arrays() && s.View() == old(s.View())
    ensures s.Len() + |xs| > s.Cap() ==> fresh(r.Arrays())
  {
    var needed := s.Len() + |xs|;
    if needed <= s.Cap() {
      if s.Nil? {
        return Nil;
      }
      forall i | 0 <= i < |xs| {
        s.backing[s.length + i] := xs[i];
      }
      r := Of(s.backing, needed);
    } else {
      var size :| size >= needed;
      var backing := new string[size];
      var before := s.View();
      forall i | 0 <= i < needed {
        backing[i] := (before + xs)[i];
      }
      r := Of(backing, needed);
    }
  }

  /** `append([]string(nil), s...)`: nothing is shared with what was there. */
  method Copied(s: Slice) returns (r: Slice)
    requires s.Valid()
    ensures r.Valid() && fresh(r.Arrays()) && r.View() == s.View()
  {
    r := Append(Nil, s.View());
  }

  /** Why a builder may not append to a slice it shares: with an element to spare, the second
      of two appends to the same slice rewrites what the first one added. */
  method AppendTwice(s: Slice, x: string, y: string) returns (first: Slice, second: Slice)
    requires s.Valid()
    modifies s.Arrays()
    ensures first.Valid() && second.Valid()
    ensures second.View() == old(s.View()) + [y]
    ensures first.View() == old(s.View()) + [if s.Len() < s.Cap() then y else x]
  {
    first := Append(s, [x]);
    second := Append(s, [y]);
  }
}
