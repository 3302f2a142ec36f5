/** The EC2 connector (Ec2/connect_ec2.py): lists the instances of every
    reservation `describe_instances` returns, lets the operator pick one by
    id, and opens an SSM session to it. The EC2 response is an input value;
    the session itself (a child process) is represented by its argv. */
module Ec2Connect {
  import opened Collections

  const NoName := "No Name"
  const NotAvailable := "N/A"

  datatype Tag = Tag(key: string, value: string)

  /** One entry of a reservation's `Instances`, as far as the connector reads it. */
  datatype DescribedInstance = DescribedInstance(
    instanceId: string,
    tags: Option<seq<Tag>>,
    stateName: string,
    publicIpAddress: Option<string>,
    privateIpAddress: Option<string>)

  datatype Reservation = Reservation(instances: seq<DescribedInstance>)

  /** A row of the listing `get_ec2_instances` returns. */
  datatype InstanceSummary = InstanceSummary(
    instanceId: string,
    name: string,
    state: string,
    publicIp: string,
    privateIp: string)

  /** The value of the first tag keyed `Name`, if there is one. */
  function FirstNameTag(tags: seq<Tag>): (r: Option<string>)
    ensures r.None? <==> forall k :: 0 <= k < |tags| ==> tags[k].key != "Name"
    ensures r.Some? ==>
      exists k :: 0 <= k < |tags| && tags[k].key == "Name" && tags[k].value == r.value
        && forall j :: 0 <= j < k ==> tags[j].key != "Name"
  {
    if tags == [] then None
    else if tags[0].key == "Name" then Some(tags[0].value)
    else
      var r := FirstNameTag(tags[1..]);
      assert forall k :: 0 <= k < |tags[1..]| ==> tags[1..][k] == tags[k + 1];
      r
  }

  /** The display name of an instance: its first `Name` tag, or "No Name"
      when it has no tags or none of them is `Name`. */
  function InstanceName(tags: Option<seq<Tag>>): string {
    if tags.None? then NoName else FirstNameTag(tags.value).GetOr(NoName)
  }

  /** The tag scan of `get_ec2_instances`: stops at the first `Name` tag. */
  method LookUpName(tags: Option<seq<Tag>>) returns (name: string)
    ensures name == InstanceName(tags)
  {
    name := NoName;
    if tags.Some? {
      var ts := tags.value;
      var i := 0;
      while i < |ts|
        invariant 0 <= i <= |ts|
        invariant forall j :: 0 <= j < i ==> ts[j].key != "Name"
        invariant name == NoName
      {
        if ts[i].key == "Name" {
          name := ts[i].value;
          break;
        }
        i := i + 1;
      }
    }
  }

  /** The listing row of one instance; absent addresses read "N/A". */
  function SummaryOf(inst: DescribedInstance): (s: InstanceSummary)
    ensures s.instanceId == inst.instanceId && s.state == inst.stateName
    ensures s.name == InstanceName(inst.tags)
    ensures inst.publicIpAddress.None? ==> s.publicIp == NotAvailable
    ensures inst.publicIpAddress.Some? ==> s.publicIp == inst.publicIpAddress.value
    ensures inst.privateIpAddress.None? ==> s.privateIp == NotAvailable
    ensures inst.privateIpAddress.Some? ==> s.privateIp == inst.privateIpAddress.value
  {
    InstanceSummary(inst.instanceId, InstanceName(inst.tags), inst.stateName,
                    inst.publicIpAddress.GetOr(NotAvailable), inst.privateIpAddress.GetOr(NotAvailable))
  }

  /** The instances of all reservations, reservation by reservation. */
  function Flatten(rs: seq<Reservation>): seq<DescribedInstance> {
    if rs == [] then [] else Flatten(rs[..|rs| - 1]) + rs[|rs| - 1].instances
  }

  function Summaries(insts: seq<DescribedInstance>): seq<InstanceSummary> {
    seq(|insts|, k requires 0 <= k < |insts| => SummaryOf(insts[k]))
  }

  /** Flattening keeps every instance of every reservation, and nothing else. */
  lemma {:induction false} FlattenMembers(rs: seq<Reservation>, x: DescribedInstance)
    ensures x in Flatten(rs) <==> exists r :: 0 <= r < |rs| && x in rs[r].instances
  {
    if rs != [] {
      var init := rs[..|rs| - 1];
      FlattenMembers(init, x);
      if x in Flatten(init) {
        var r :| 0 <= r < |init| && x in init[r].instances;
        assert rs[r] == init[r];
      }
      if exists r :: 0 <= r < |rs| && x in rs[r].instances {
        var r :| 0 <= r < |rs| && x in rs[r].instances;
        if r < |rs| - 1 {
          assert init[r] == rs[r];
        }
      }
    }
  }

  /** Instance `i` of reservation `r` sits right after the instances of the
      reservations before `r`: reservation-then-instance order. */
  lemma {:induction false} FlattenPosition(rs: seq<Reservation>, r: nat, i: nat)
    requires r < |rs| && i < |rs[r].instances|
    ensures |Flatten(rs[..r])| + i < |Flatten(rs)|
    ensures Flatten(rs)[|Flatten(rs[..r])| + i] == rs[r].instances[i]
  {
    if r == |rs| - 1 {
      assert rs[..|rs| - 1] == rs[..r];
    } else {
      var init := rs[..|rs| - 1];
      assert init[r] == rs[r] && init[..r] == rs[..r];
      FlattenPosition(init, r, i);
    }
  }

  /** `get_ec2_instances`: one listing row per instance, in
      reservation-then-instance order. A failed call to EC2 is passed on as
      the error that makes the program exit. */
  method GetEc2Instances(response: Result<seq<Reservation>>) returns (listing: Result<seq<InstanceSummary>>)
    ensures response.Err? ==> listing.Err?
    ensures response.Ok? ==> listing == Ok(Summaries(Flatten(response.value)))
  {
    if response.Err? {
      return Err(response.error);
    }
    var rs := response.value;
    var list: seq<InstanceSummary> := [];
    for r := 0 to |rs|
      invariant list == Summaries(Flatten(rs[..r]))
    {
      var insts := rs[r].instances;
      for i := 0 to |insts|
        invariant list == Summaries(Flatten(rs[..r]) + insts[..i])
      {
        var inst := insts[i];
        var name := LookUpName(inst.tags);
        assert Flatten(rs[..r]) + insts[..i + 1] == (Flatten(rs[..r]) + insts[..i]) + [inst];
        list := list + [InstanceSummary(inst.instanceId, name, inst.stateName,
                                        inst.publicIpAddress.GetOr(NotAvailable),
                                        inst.privateIpAddress.GetOr(NotAvailable))];
      }
      assert insts[..|insts|] == insts;
      assert rs[..r + 1][..r] == rs[..r];
    }
    assert rs[..|rs|] == rs;
    return Ok(list);
  }

  /** Some listed instance has this id (`any(... for instance in instances)`). */
  function IsListed(listing: seq<InstanceSummary>, instanceId: string): (b: bool)
    ensures b <==> exists k :: 0 <= k < |listing| && listing[k].instanceId == instanceId
  {
    if listing == [] then false
    else if listing[0].instanceId == instanceId then true
    else
      var b := IsListed(listing[1..], instanceId);
      assert forall k :: 0 <= k < |listing[1..]| ==> listing[1..][k] == listing[k + 1];
      b
  }

  /** How the AWS CLI reads `--flag value` pairs: the value of the first pair
      whose flag is `flag`. */
  function OptionValue(args: seq<string>, flag: string): Option<string>
    decreases |args|
  {
    if |args| < 2 then None
    else if args[0] == flag then Some(args[1])
    else OptionValue(args[2..], flag)
  }

  /** The argv of `connect_to_instance`: `aws ssm start-session` whose options
      read back as the chosen instance, profile and region, whatever those
      strings are. */
  function ConnectCommand(instanceId: string, profile: string, region: string): (argv: seq<string>)
    ensures |argv| == 9 && argv[..3] == ["aws", "ssm", "start-session"]
    ensures OptionValue(argv[3..], "--target") == Some(instanceId)
    ensures OptionValue(argv[3..], "--profile") == Some(profile)
    ensures OptionValue(argv[3..], "--region") == Some(region)
  {
    var argv := ["aws", "ssm", "start-session", "--target", instanceId, "--profile", profile, "--region", region];
    var opts := argv[3..];
    assert opts == ["--target", instanceId, "--profile", profile, "--region", region];
    assert opts[2..] == ["--profile", profile, "--region", region];
    assert opts[2..][2..] == ["--region", region];
    assert OptionValue(opts, "--region") == OptionValue(opts[2..], "--region") == OptionValue(opts[2..][2..], "--region");
    argv
  }

  /** What `main` ends in. */
  datatype Outcome = Exit(code: int) | Connect(argv: seq<string>)

  /** `main` after the prompts: a failed listing exits 1, an empty one exits
      0, an id that is not listed exits 1, and a listed one is connected to. */
  function ConnectDecision(listing: Result<seq<InstanceSummary>>, chosen: string, profile: string, region: string): (o: Outcome)
    ensures listing.Err? ==> o == Exit(1)
    ensures listing == Ok([]) ==> o == Exit(0)
    ensures listing.Ok? && listing.value != [] && !IsListed(listing.value, chosen) ==> o == Exit(1)
    ensures o.Connect? <==> listing.Ok? && listing.value != [] && exists k :: 0 <= k < |listing.value| && listing.value[k].instanceId == chosen
    ensures o.Connect? ==> o.argv == ConnectCommand(chosen, profile, region)
    ensures o.Exit? ==> o.code == 0 || o.code == 1
  {
    if listing.Err? then Exit(1)
    else if listing.value == [] then Exit(0)
    else if !IsListed(listing.value, chosen) then Exit(1)
    else Connect(ConnectCommand(chosen, profile, region))
  }

  /** Every instance of every reservation has a row in the listing. */
  lemma ReturnedInstanceIsListed(rs: seq<Reservation>, r: nat, i: nat)
    requires r < |rs| && i < |rs[r].instances|
    ensures IsListed(Summaries(Flatten(rs)), rs[r].instances[i].instanceId)
  {
    FlattenPosition(rs, r, i);
    var k := |Flatten(rs[..r])| + i;
    assert Summaries(Flatten(rs))[k].instanceId == rs[r].instances[i].instanceId;
  }

  /** Every row of the listing belongs to an instance of some reservation. */
  lemma ListedInstanceIsReturned(rs: seq<Reservation>, chosen: string)
    requires IsListed(Summaries(Flatten(rs)), chosen)
    ensures exists r, i :: 0 <= r < |rs| && 0 <= i < |rs[r].instances| && rs[r].instances[i].instanceId == chosen
  {
    var flat := Flatten(rs);
    var k :| 0 <= k < |flat| && Summaries(flat)[k].instanceId == chosen;
    FlattenMembers(rs, flat[k]);
    var r :| 0 <= r < |rs| && flat[k] in rs[r].instances;
    var i :| 0 <= i < |rs[r].instances| && rs[r].instances[i] == flat[k];
  }

  /** End to end: the connector opens a session exactly when the chosen id
      is the id of an instance in one of the reservations EC2 returned. */
  lemma ConnectsOnlyToReturnedInstances(rs: seq<Reservation>, chosen: string, profile: string, region: string)
    ensures ConnectDecision(Ok(Summaries(Flatten(rs))), chosen, profile, region).Connect?
            <==> exists r, i :: 0 <= r < |rs| && 0 <= i < |rs[r].instances| && rs[r].instances[i].instanceId == chosen
  {
    if exists r, i :: 0 <= r < |rs| && 0 <= i < |rs[r].instances| && rs[r].instances[i].instanceId == chosen {
      var r, i :| 0 <= r < |rs| && 0 <= i < |rs[r].instances| && rs[r].instances[i].instanceId == chosen;
      ReturnedInstanceIsListed(rs, r, i);
    }
    if IsListed(Summaries(Flatten(rs)), chosen) {
      ListedInstanceIsReturned(rs, chosen);
    }
  }

  /** The colour of the state cell in `display_instances`. */
  function StateColor(state: string): (c: string)
    ensures c == "green" <==> state == "running"
    ensures c == "green" || c == "red"
  {
    if state == "running" then "green" else "red"
  }
}
