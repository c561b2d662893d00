/** The argv of the aws CLI calls: the base command with the optional profile and
    region, then the head-object query for the size and the copy to stdout for the
    digest. */
module AwsCommand {
  import opened Text
  import opened Manifest

  /** Python truthiness of an optional string: present and non-empty. */
  predicate Truthy(o: Option<string>) {
    o.Some? && o.value != ""
  }

  /** The value the CLI is given for an option: the truthy value, or nothing. */
  function Given(o: Option<string>): Option<string> {
    if Truthy(o) then o else None
  }

  /** The value following `flag` in a list of option/value pairs, if it is there. */
  function OptionValue(pairs: seq<string>, flag: string): Option<string>
    decreases |pairs|
  {
    if |pairs| < 2 then None
    else if pairs[0] == flag then Some(pairs[1])
    else OptionValue(pairs[2..], flag)
  }

  /** The base command as a value: "aws", then "--profile" and "--region" pairs for
      the options that are set. */
  function BaseCommand(profile: Option<string>, region: Option<string>): (r: seq<string>)
    ensures |r| >= 1 && r[0] == "aws"
  {
    ["aws"]
      + (if Truthy(profile) then ["--profile", profile.value] else [])
      + (if Truthy(region) then ["--region", region.value] else [])
  }

  /** _aws_base_command: start from "aws" and extend by each option that is set. */
  method AwsBaseCommand(profile: Option<string>, region: Option<string>) returns (command: seq<string>)
    ensures command == BaseCommand(profile, region)
    ensures command[0] == "aws" && |command| % 2 == 1
    ensures OptionValue(command[1..], "--profile") == Given(profile)
    ensures OptionValue(command[1..], "--region") == Given(region)
  {
    command := ["aws"];
    if Truthy(profile) {
      command := command + ["--profile", profile.value];
    }
    if Truthy(region) {
      command := command + ["--region", region.value];
    }
    BaseCommandOptions(profile, region);
  }

  /** The base command hands the CLI exactly the options that are set. */
  lemma BaseCommandOptions(profile: Option<string>, region: Option<string>)
    ensures var c := BaseCommand(profile, region);
      && |c| == 1 + (if Truthy(profile) then 2 else 0) + (if Truthy(region) then 2 else 0)
      && OptionValue(c[1..], "--profile") == Given(profile)
      && OptionValue(c[1..], "--region") == Given(region)
  {
    var c := BaseCommand(profile, region);
    var p := if Truthy(profile) then ["--profile", profile.value] else [];
    var q := if Truthy(region) then ["--region", region.value] else [];
    assert c[1..] == p + q;
    if Truthy(profile) {
      assert (p + q)[2..] == q;
    }
    if Truthy(region) {
      assert q[2..] == [];
    }
  }

  /** The arguments after the base command that ask for an object's size. */
  function HeadObjectArgs(obj: S3ObjectRef): seq<string> {
    ["s3api", "head-object", "--bucket", obj.bucket, "--key", obj.key, "--query", "ContentLength", "--output", "text"]
  }

  /** The arguments after the base command that stream an object to stdout. */
  function CopyArgs(obj: S3ObjectRef): seq<string> {
    ["s3", "cp", obj.uri, "-"]
  }

  /** The size query names the object's bucket and key and asks for ContentLength as text. */
  lemma HeadObjectAddressesObject(obj: S3ObjectRef)
    ensures var args := HeadObjectArgs(obj)[2..];
      && OptionValue(args, "--bucket") == Some(obj.bucket)
      && OptionValue(args, "--key") == Some(obj.key)
      && OptionValue(args, "--query") == Some("ContentLength")
      && OptionValue(args, "--output") == Some("text")
  {
    var args := HeadObjectArgs(obj)[2..];
    assert args[2..] == ["--key", obj.key, "--query", "ContentLength", "--output", "text"];
    assert args[2..][2..] == ["--query", "ContentLength", "--output", "text"];
    assert args[2..][2..][2..] == ["--output", "text"];
    assert OptionValue(args[2..][2..][2..], "--output") == Some("text");
    assert OptionValue(args[2..][2..], "--output") == Some("text");
    assert OptionValue(args[2..], "--output") == Some("text");
    assert OptionValue(args[2..], "--query") == Some("ContentLength");
  }
}
