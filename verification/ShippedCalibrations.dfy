/** The two calibrations the simulator ships (simulator/src/calibration.cpp), texts aside. */
module ShippedCalibrations {
  import opened VehicleDynamics
  import Cal = Calibration

  const PEDAL_AXIS := [0.0, 0.25, 0.5, 0.75, 1.0]
  const BOOST_SPEED_AXIS := [1000.0, 2500.0, 4000.0, 5500.0, 6500.0]
  const LOAD_AXIS := [0.0, 0.5, 1.0]
  const LAMBDA_AXIS := [0.0, 0.5, 0.8, 1.0]
  const IGNITION_SPEED_AXIS := [2000.0, 3500.0, 5000.0, 6500.0]

  function Stock(): CalibrationProfile {
    CalibrationProfile(
      Cal.Table1D(PEDAL_AXIS, [0.0, 0.22, 0.48, 0.74, 1.0]),
      Cal.Table2D(BOOST_SPEED_AXIS, LOAD_AXIS,
                  [0.0, 0.0, 0.0, 0.0, 25.0, 70.0, 0.0, 35.0, 90.0, 0.0, 28.0, 75.0, 0.0, 10.0, 40.0]),
      Cal.Table1D(LAMBDA_AXIS, [1.0, 1.0, 0.90, 0.86]),
      Cal.Table2D(IGNITION_SPEED_AXIS, LOAD_AXIS,
                  [18.0, 14.0, 10.0, 22.0, 15.0, 8.0, 24.0, 16.0, 7.0, 20.0, 12.0, 5.0]),
      0.80,
      1.0)
  }

  function Stage1(): CalibrationProfile {
    CalibrationProfile(
      Cal.Table1D(PEDAL_AXIS, [0.0, 0.28, 0.60, 0.86, 1.0]),
      Cal.Table2D(BOOST_SPEED_AXIS, LOAD_AXIS,
                  [0.0, 0.0, 0.0, 0.0, 35.0, 95.0, 0.0, 50.0, 125.0, 0.0, 45.0, 110.0, 0.0, 20.0, 65.0]),
      Cal.Table1D(LAMBDA_AXIS, [1.0, 1.0, 0.88, 0.82]),
      Cal.Table2D(IGNITION_SPEED_AXIS, LOAD_AXIS,
                  [18.0, 14.0, 9.0, 22.0, 16.0, 10.0, 24.0, 18.0, 9.0, 20.0, 14.0, 7.0]),
      0.65,
      1.08)
  }

  /** Both pass every check of the axis and table constructors, and their mixture targets are positive:
      what the theorems about runs ask of a calibration holds of the shipped ones. */
  lemma {:induction false} ShippedAreValid()
    ensures ValidCalibration(Stock()) && ValidCalibration(Stage1())
  {
    AxesAreValid();
  }

  lemma {:induction false} AxesAreValid()
    ensures Cal.ValidAxis(PEDAL_AXIS) && Cal.ValidAxis(BOOST_SPEED_AXIS) && Cal.ValidAxis(LOAD_AXIS)
    ensures Cal.ValidAxis(LAMBDA_AXIS) && Cal.ValidAxis(IGNITION_SPEED_AXIS)
  {
  }

  /** Everywhere, between the breakpoints too, stage 1 opens the throttle no less, asks for no less boost and
      mixes no leaner than stock; and it is quicker and stronger. */
  lemma {:induction false} Stage1IsStronger(pedal: real, rpm: real, load: real)
    ensures ValidCalibration(Stock()) && ValidCalibration(Stage1())
    ensures Cal.Lookup1D(Stock().throttle, pedal) <= Cal.Lookup1D(Stage1().throttle, pedal)
    ensures Cal.Lookup2D(Stock().boost, rpm, load) <= Cal.Lookup2D(Stage1().boost, rpm, load)
    ensures Cal.Lookup1D(Stage1().lambdaTarget, load) <= Cal.Lookup1D(Stock().lambdaTarget, load)
    ensures Stage1().boostTau < Stock().boostTau && Stock().outputMultiplier < Stage1().outputMultiplier
  {
    hide Cal.Lookup1D, Cal.Lookup2D;
    ShippedAreValid();
    Cal.LookupsStayOrdered(Stock().throttle, Stage1().throttle, pedal);
    Cal.Lookup2DKeepsOrder(Stock().boost, Stage1().boost, rpm, load);
    Cal.LookupsStayOrdered(Stage1().lambdaTarget, Stock().lambdaTarget, load);
  }

  /** The pedal, boost, mixture and ignition the two calibrations can ask for, in or out of their axes. */
  lemma {:induction false} ShippedRanges(pedal: real, rpm: real, load: real)
    ensures ValidCalibration(Stock()) && ValidCalibration(Stage1())
    ensures 0.0 <= Cal.Lookup1D(Stock().throttle, pedal) <= 1.0
    ensures 0.0 <= Cal.Lookup1D(Stage1().throttle, pedal) <= 1.0
    ensures 0.0 <= Cal.Lookup2D(Stock().boost, rpm, load) <= 90.0
    ensures 0.0 <= Cal.Lookup2D(Stage1().boost, rpm, load) <= 125.0
    ensures 0.86 <= Cal.Lookup1D(Stock().lambdaTarget, load) <= 1.0
    ensures 0.82 <= Cal.Lookup1D(Stage1().lambdaTarget, load) <= 1.0
    ensures 5.0 <= Cal.Lookup2D(Stock().ignition, rpm, load) <= 24.0
    ensures 7.0 <= Cal.Lookup2D(Stage1().ignition, rpm, load) <= 24.0
  {
    hide Cal.Lookup1D, Cal.Lookup2D;
    ShippedAreValid();
    Cal.LookupStaysWithin(Stock().throttle, pedal, 0.0, 1.0);
    Cal.LookupStaysWithin(Stage1().throttle, pedal, 0.0, 1.0);
    Cal.Lookup2DStaysWithin(Stock().boost, rpm, load, 0.0, 90.0);
    Cal.Lookup2DStaysWithin(Stage1().boost, rpm, load, 0.0, 125.0);
    Cal.LookupStaysWithin(Stock().lambdaTarget, load, 0.86, 1.0);
    Cal.LookupStaysWithin(Stage1().lambdaTarget, load, 0.82, 1.0);
    Cal.Lookup2DStaysWithin(Stock().ignition, rpm, load, 5.0, 24.0);
    Cal.Lookup2DStaysWithin(Stage1().ignition, rpm, load, 7.0, 24.0);
  }

  /** The tables at their breakpoints: throttle by pedal, mixture by load, */
  lemma {:induction false} ShippedCurves(i: nat)
    ensures ValidCalibration(Stock()) && ValidCalibration(Stage1())
    ensures i < 5 ==>
              && Cal.Lookup1D(Stock().throttle, 0.25 * i as real) == [0.0, 0.22, 0.48, 0.74, 1.0][i]
              && Cal.Lookup1D(Stage1().throttle, 0.25 * i as real) == [0.0, 0.28, 0.60, 0.86, 1.0][i]
    ensures i < 4 ==>
              && Cal.Lookup1D(Stock().lambdaTarget, [0.0, 0.5, 0.8, 1.0][i]) == [1.0, 1.0, 0.90, 0.86][i]
              && Cal.Lookup1D(Stage1().lambdaTarget, [0.0, 0.5, 0.8, 1.0][i]) == [1.0, 1.0, 0.88, 0.82][i]
  {
    hide Cal.Lookup1D;
    ShippedAreValid();
    if i < 5 {
      Cal.GridIsExact(Stock().throttle, i);
      Cal.GridIsExact(Stage1().throttle, i);
    }
    if i < 4 {
      Cal.GridIsExact(Stock().lambdaTarget, i);
      Cal.GridIsExact(Stage1().lambdaTarget, i);
    }
  }

  /** boost by engine speed at idle, half and full load, */
  lemma {:induction false} ShippedBoost(i: nat)
    requires i < 5
    ensures ValidCalibration(Stock()) && ValidCalibration(Stage1())
    ensures var rpm := [1000.0, 2500.0, 4000.0, 5500.0, 6500.0][i];
            && Cal.Lookup2D(Stock().boost, rpm, 0.0) == 0.0 && Cal.Lookup2D(Stage1().boost, rpm, 0.0) == 0.0
            && Cal.Lookup2D(Stock().boost, rpm, 0.5) == [0.0, 25.0, 35.0, 28.0, 10.0][i]
            && Cal.Lookup2D(Stock().boost, rpm, 1.0) == [0.0, 70.0, 90.0, 75.0, 40.0][i]
            && Cal.Lookup2D(Stage1().boost, rpm, 0.5) == [0.0, 35.0, 50.0, 45.0, 20.0][i]
            && Cal.Lookup2D(Stage1().boost, rpm, 1.0) == [0.0, 95.0, 125.0, 110.0, 65.0][i]
  {
    hide Cal.Lookup2D;
    ShippedAreValid();
    forall j | 0 <= j < 3
      ensures Cal.Lookup2D(Stock().boost, BOOST_SPEED_AXIS[i], LOAD_AXIS[j]) == Cal.At(Stock().boost, i, j)
      ensures Cal.Lookup2D(Stage1().boost, BOOST_SPEED_AXIS[i], LOAD_AXIS[j]) == Cal.At(Stage1().boost, i, j)
    {
      Cal.Grid2DIsExact(Stock().boost, i, j);
      Cal.Grid2DIsExact(Stage1().boost, i, j);
    }
    assert LOAD_AXIS[0] == 0.0 && LOAD_AXIS[1] == 0.5 && LOAD_AXIS[2] == 1.0;
  }

  /** and ignition. */
  lemma {:induction false} ShippedIgnition(i: nat)
    requires i < 4
    ensures ValidCalibration(Stock()) && ValidCalibration(Stage1())
    ensures var rpm := [2000.0, 3500.0, 5000.0, 6500.0][i];
            && Cal.Lookup2D(Stock().ignition, rpm, 0.0) == [18.0, 22.0, 24.0, 20.0][i]
            && Cal.Lookup2D(Stock().ignition, rpm, 0.5) == [14.0, 15.0, 16.0, 12.0][i]
            && Cal.Lookup2D(Stock().ignition, rpm, 1.0) == [10.0, 8.0, 7.0, 5.0][i]
            && Cal.Lookup2D(Stage1().ignition, rpm, 0.0) == [18.0, 22.0, 24.0, 20.0][i]
            && Cal.Lookup2D(Stage1().ignition, rpm, 0.5) == [14.0, 16.0, 18.0, 14.0][i]
            && Cal.Lookup2D(Stage1().ignition, rpm, 1.0) == [9.0, 10.0, 9.0, 7.0][i]
  {
    hide Cal.Lookup2D;
    ShippedAreValid();
    forall j | 0 <= j < 3
      ensures Cal.Lookup2D(Stock().ignition, IGNITION_SPEED_AXIS[i], LOAD_AXIS[j]) == Cal.At(Stock().ignition, i, j)
      ensures Cal.Lookup2D(Stage1().ignition, IGNITION_SPEED_AXIS[i], LOAD_AXIS[j]) == Cal.At(Stage1().ignition, i, j)
    {
      Cal.Grid2DIsExact(Stock().ignition, i, j);
      Cal.Grid2DIsExact(Stage1().ignition, i, j);
    }
    assert LOAD_AXIS[0] == 0.0 && LOAD_AXIS[1] == 0.5 && LOAD_AXIS[2] == 1.0;
  }
}
