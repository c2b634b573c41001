/** The viewer's colour assignment: a queue of unused colours and the
    colours already given to groups. */
module Colors {
  import opened Attributes
  import opened DatabaseService

  /** The configured colour set, `d3.schemeSet3`. */
  const ColorSet: seq<string> := [
    "#8dd3c7", "#ffffb3", "#bebada", "#fb8072", "#80b1d3", "#fdb462",
    "#b3de69", "#fccde5", "#d9d9d9", "#bc80bd", "#ccebc5", "#ffed6f"]

  /** The configured group colours. */
  const GroupColors: map<string, string> := map[
    "origin" := "#bc80bd", "KA" := "#fdb462", "BMSGPK" := "#ffed6f",
    "Gemeinde/Magistrat" := "#ff4e41", "ELGA" := "#80b1d3", "GÃ–G" := "#fb8072",
    "default" := "#bc80bd", "Landesgesundheitsfonds" := "#d9d9d9", "SV" := "#b3de69",
    "StatistikAT" := "#fb9a99"]

  /** The node property that selects a node's colour. */
  const ColoringAttribute := "institution"

  /** What `getColor` is asked about: a cluster's name or a node. */
  datatype ColorSubject = Group(name: Value) | NodeColor(node: D3Node)

  /** The property name the colour is stored under: `"origin"` for an
      origin node, the node's colouring property otherwise, and a cluster
      name as it is; `undefined` becomes the key `"undefined"`. */
  function ColorKey(subject: ColorSubject): string {
    match subject
    case Group(name) => Render(name)
    case NodeColor(n) =>
      if "origin" in n.labels then "origin" else Render(Lookup(n.properties, ColoringAttribute))
  }

  /** The queue of unused colours and the colours already assigned. */
  datatype Palette = Palette(colorSet: seq<string>, groupColors: map<string, string>)

  /** The queue is what is left of the configured set. */
  predicate IsRest(p: Palette) {
    exists k :: 0 <= k <= |ColorSet| && p.colorSet == ColorSet[k..]
  }

  /** `getColor` on the key: an empty queue is refilled first; an assigned
      key keeps its colour, and a new key takes the head of the queue,
      which is shifted off. */
  function AssignColor(p: Palette, key: string): (r: (string, Palette)) {
    var queue := if p.colorSet == [] then ColorSet else p.colorSet;
    if key in p.groupColors then (p.groupColors[key], p.(colorSet := queue))
    else (queue[0], Palette(queue[1..], p.groupColors[key := queue[0]]))
  }

  /** Asking again for the same key gives the same colour and assigns
      nothing new. */
  lemma ColorRepeat(p: Palette, key: string)
    ensures var (c, q) := AssignColor(p, key);
      && AssignColor(q, key).0 == c
      && AssignColor(q, key).1.groupColors == q.groupColors
  {
  }

  /** A suffix of a non-empty list, refilled with the whole list when
      empty, is again a suffix, starting at `start`. */
  lemma QueueSuffix(all: seq<string>, cs: seq<string>, k: nat) returns (start: nat)
    requires 0 < |all| && k <= |all| && cs == all[k..]
    ensures start < |all| && (if cs == [] then all else cs) == all[start..]
    ensures (if cs == [] then all else cs)[0] == all[start]
    ensures (if cs == [] then all else cs)[1..] == all[start + 1..]
  {
    start := if cs == [] then 0 else k;
  }

  /** The queue left by an assignment is still what is left of the
      configured set. */
  lemma AssignColorRest(p: Palette, key: string)
    requires IsRest(p)
    ensures IsRest(AssignColor(p, key).1)
  {
    var k :| 0 <= k <= |ColorSet| && p.colorSet == ColorSet[k..];
    var start := QueueSuffix(ColorSet, p.colorSet, k);
    var q := AssignColor(p, key).1;
    if key in p.groupColors {
      assert q.colorSet == ColorSet[start..];
    } else {
      assert q.colorSet == ColorSet[start + 1..];
    }
  }

  /** A new key takes a configured colour and is the one key added. */
  lemma AssignColorNew(p: Palette, key: string)
    requires IsRest(p) && key !in p.groupColors
    ensures AssignColor(p, key).0 in ColorSet
    ensures AssignColor(p, key).1.groupColors == p.groupColors[key := AssignColor(p, key).0]
  {
    var k :| 0 <= k <= |ColorSet| && p.colorSet == ColorSet[k..];
    var start := QueueSuffix(ColorSet, p.colorSet, k);
    assert AssignColor(p, key).0 == ColorSet[start];
  }

  /** A new key is given a configured colour, the queue keeps being what
      is left of the configured set, and no other key changes colour. */
  lemma ColorFromSet(p: Palette, key: string)
    requires IsRest(p)
    ensures var (c, q) := AssignColor(p, key);
      && IsRest(q)
      && (key !in p.groupColors ==> c in ColorSet && q.groupColors == p.groupColors[key := c])
      && (forall k :: k in p.groupColors ==> k in q.groupColors && q.groupColors[k] == p.groupColors[k])
  {
    AssignColorRest(p, key);
    if key !in p.groupColors {
      AssignColorNew(p, key);
    }
  }
}
