/** The two tools together: the registration script exports a group with one
    level `s0`, and `add_downsampling.py` then registers `s1`. */
module Pipeline {
  import opened Results
  import opened N5
  import opened FibsemRegistration
  import opened AddDownsampling

  /** After the export's metadata merges, adding level 1 succeeds in
      appending it: the group then lists `[1, 1, 1]` and the step's own
      factors, whatever happens to the dataset file afterwards. */
  lemma ExportThenDownscale(files: map<string, Attributes>, gp: string, dp0: string, dp1: string,
                            resolution: Json, unit: Json, metadata: Json, config: Json,
                            timestamp: string, exportedBad: map<string, Json>, d: Downsampling,
                            mode: DatasetWrite)
    requires gp != dp1
    ensures var exported := ExportedFiles(files, gp, dp0, resolution, unit, metadata, config,
                                          timestamp, exportedBad);
            var s := AddDownscaleAt(exported, gp, dp1, 1, d, mode);
            gp in s.files && "downsamplingFactors" in s.files[gp] &&
            s.files[gp]["downsamplingFactors"] == Arr([IntsJson([1, 1, 1]), IntsJson(ZipMult([1, 1, 1], d))])
  {
    var exported := ExportedFiles(files, gp, dp0, resolution, unit, metadata, config, timestamp, exportedBad);
    ExportedMetadata(files, gp, dp0, resolution, unit, metadata, config, timestamp, exportedBad);
    IntListIntsJson([1, 1, 1]);
    assert LevelsReady(exported[gp], 1);
    assert NewLevel(exported[gp], 1, d) == ZipMult([1, 1, 1], d);
    AddDownscaleAppendsLevel(exported, gp, dp1, 1, d, mode);
    assert [IntsJson([1, 1, 1])] + [IntsJson(ZipMult([1, 1, 1], d))] ==
           [IntsJson([1, 1, 1]), IntsJson(ZipMult([1, 1, 1], d))];
  }

  /** `main`'s `container / group_name(group)` is the directory the export
      wrote the group to under the same name. */
  lemma MainTargetsExportedGroup(container: string, groupName: string)
    ensures PathDiv(container, GroupName(groupName)) == TargetDir(container, Some(groupName))
  {
    GroupNameStripsSlashes(groupName);
  }

  /** The same on the container's own paths: the group exported under
      `groupName` is the directory `add_downsampling.py` is pointed at, and
      its attributes file is the one the export wrote. */
  lemma ExportedGroupTakesLevelOne(files: map<string, Attributes>, exportDir: string, groupName: string,
                                   resolution: Json, unit: Json, metadata: Json, config: Json,
                                   timestamp: string, badSections: map<int, Json>, d: Downsampling)
    ensures var groupPath := TargetDir(exportDir, Some(groupName));
            var exported := ExportedFiles(files, AttributesPath(exportDir, Some(groupName)),
                                          AttributesPath(exportDir, Some(DatasetName(groupName))),
                                          resolution, unit, metadata, config, timestamp,
                                          ExportBadSections(badSections));
            var s := AddDownscaleSpec(exported, groupPath, 1, d, AsWritten);
            GroupAttrsPath(groupPath) in s.files && "downsamplingFactors" in s.files[GroupAttrsPath(groupPath)] &&
            s.files[GroupAttrsPath(groupPath)]["downsamplingFactors"] ==
              Arr([IntsJson([1, 1, 1]), IntsJson(ZipMult([1, 1, 1], d))])
  {
    var groupPath := TargetDir(exportDir, Some(groupName));
    var gp := GroupAttrsPath(groupPath);
    assert AttributesPath(exportDir, Some(groupName)) == gp;
    AttrsPathsDistinct(groupPath, 1, 1);
    ExportThenDownscale(files, gp, AttributesPath(exportDir, Some(DatasetName(groupName))),
                        ScaleAttrsPath(groupPath, 1), resolution, unit, metadata, config, timestamp,
                        ExportBadSections(badSections), d, AsWritten);
  }
}
